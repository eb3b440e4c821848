/** Statements about whole runs of the resize machine: what no run can do, and reachable states that show which
    stronger statements would be false. */
module ResizeRuns {
  import opened Hashing
  import opened ResizeMachine
  import opened ResizeSafety
  import opened ResizeOrder
  import opened ResizeStages

  // ----- versions and regions over a run -----

  /** Over any run the current version never decreases, and an old region is pending until it is released. */
  lemma {:induction false} VersionsNeverDecrease(s: State, actions: seq<Action>)
    requires SafetyInv(s)
    ensures var t := Run(s, actions);
      s.reg.current <= t.reg.current && s.srv.released <= t.srv.released
    ensures var t := Run(s, actions);
      s.srv.pendingOld > 0 ==> t.srv.pendingOld == s.srv.pendingOld || s.srv.pendingOld in t.srv.released
  {
    if actions != [] {
      var n := |actions| - 1;
      VersionsNeverDecrease(s, actions[..n]);
      EveryRunIsSafe(s, actions[..n]);
      var t := Run(s, actions[..n]);
      VersionsIncrease(t, actions[n]);
      NoPendingRegionIsForgotten(t, actions[n]);
      ReleasedStays(t, actions[n]);
      hide ControlInv, FlagInv, DeferralInv, Step;
    }
  }

  lemma ReleasedStays(s: State, a: Action)
    requires Shaped(s)
    ensures s.srv.released <= Step(s, a).srv.released
  {
  }

  // ----- the flag and the phase -----

  /** The flag differs from what the phase asks for exactly between the two stores of a change from a blocking phase to
      one that does not block, or back. */
  lemma FlagDiffersExactly(s: State)
    requires FlagInv(s)
    ensures s.reg.blocked != Blocks(s.reg.phase) <==>
              s.srv.pc.SetPhase? && Blocks(s.srv.pc.target) != Blocks(s.reg.phase)
  {
  }

  /** A reachable state in which mutations are blocked in a phase that does not block them. */
  lemma FlagBeforePhase()
    ensures var s := Run(Initial(3, 1, 0, 1, {}), Times(6));
      s.reg.blocked && s.reg.phase.PreResize? && !Blocks(s.reg.phase)
  {
    var s0 := Initial(3, 1, 0, 1, {});
    ServeIsRun(s0, 6);
    SixSteps(s0);
  }

  /** The server decides to resize and is about to store the copying phase. */
  lemma SixSteps(s: State)
    requires Shaped(s) && s.srv.pc.Idle? && s.reg.phase.Normal?
    ensures var t := Serve(s, 6);
      && t.reg == s.reg.(phase := PreResize, blocked := true, generation := s.reg.generation + 1)
      && t.srv == s.srv.(pc := SetPhase(Copying, CreateRegion(s.reg.current))) && t.dfr == s.dfr
  {
    var T := ServerStep(true);
    var s1 := Step(s, T);
    var s2 := Step(s1, T);
    var s3 := Step(s2, T);
    var s4 := Step(s3, T);
    var s5 := Step(s4, T);
    assert Serve(s, 6) == Serve(s1, 5);
    assert Serve(s1, 5) == Serve(s2, 4);
    assert Serve(s2, 4) == Serve(s3, 3);
    assert Serve(s3, 3) == Serve(s4, 2);
    assert Serve(s4, 2) == Serve(s5, 1);
    assert Serve(s5, 1) == Step(s5, T);
  }

  // ----- a run that replays out of order -----

  /** A deletion and a re-insertion of the same key arrive in this order during one resize. */
  function Late(): (ms: seq<Mutation>) {
    [Deletion(7), Insertion(7, 1)]
  }

  function Handlers(): (actions: seq<Action>) {
    [CheckFlag(Deletion(7)), Enqueue(0), CheckFlag(Insertion(7, 1)), Enqueue(0)]
  }

  function BreakingRun(): (actions: seq<Action>) {
    Times(6) + Handlers() + Times(23)
  }

  /** A reachable state, with no drain under way, in which the re-insertion was replayed before the deletion. */
  lemma OrderIsBroken()
    ensures var d := Run(Initial(3, 1, 0, 1, {}), BreakingRun()).dfr;
      && !d.locked && d.arrived == Late() && d.drains.replays == [Late()[1], Late()[0]] && !OrderKept(d)
  {
    var s := Run(Initial(3, 1, 0, 1, {}), Times(6) + Handlers());
    RunInParts(Initial(3, 1, 0, 1, {}), Times(6) + Handlers(), Times(23));
    ServeIsRun(s, 23);
    FlagIsSeen();
    RestOfResize(s);
    hide Run, Serve, Initial;
    var d := Run(Initial(3, 1, 0, 1, {}), BreakingRun()).dfr;
    assert d.drains.replays[0] != d.arrived[0];
  }

  /** Both handlers read the flag before the copying phase is stored. */
  lemma FlagIsSeen()
    ensures var s := Run(Initial(3, 1, 0, 1, {}), Times(6) + Handlers());
      && |s.reg.lanes| == 1 && s.srv.pc == SetPhase(Copying, CreateRegion(s.reg.current))
      && s.dfr == Deferral(false, [], Log([Late()[1]], [Late()[1]], []), Log([Late()[0]], [Late()[0]], []), Late(),
                           Drains([], Late(), []))
  {
    var s0 := Initial(3, 1, 0, 1, {});
    RunInParts(s0, Times(6), Handlers());
    ServeIsRun(s0, 6);
    SixSteps(s0);
    HandlersArrive(Run(s0, Times(6)));
    hide Run, Serve, Times, Handlers, Step;
  }

  /** From the flag store of the copying phase to the drain. */
  lemma ToDrain(s: State)
    requires Shaped(s) && |s.reg.lanes| == 1 && s.srv.pc == SetPhase(Copying, CreateRegion(s.reg.current))
    ensures var t := Serve(s, 19);
      t.dfr == s.dfr.(locked := true) && t.srv.pc.ReplayInserts? && t.srv.pendingOld == s.reg.current
  {
    hide Serve, Step;
    ServeInParts(s, 2, 17);
    CopyBegins(s);
    var t := Serve(s, 2);
    ServeInParts(t, 2, 15);
    RecordStage(t);
    var u := Serve(t, 2);
    ServeInParts(u, 2, 13);
    LaneStage(u);
    ServeInParts(Serve(u, 2), 4, 9);
    PublishStage(Serve(u, 2));
    SwitchStage(Serve(Serve(u, 2), 4));
  }

  lemma CopyBegins(s: State)
    requires Shaped(s) && s.srv.pc == SetPhase(Copying, CreateRegion(s.reg.current))
    ensures var t := Serve(s, 2);
      && t.srv == s.srv.(pc := CreateRegion(s.reg.current)) && t.dfr == s.dfr && t.reg.current == s.reg.current
      && t.epochSlots == s.epochSlots && t.reg.lanes == s.reg.lanes
  {
    ServeInParts(s, 1, 1);
    One(s);
    One(Serve(s, 1));
    hide Serve;
  }

  lemma RestOfResize(s: State)
    requires Shaped(s) && |s.reg.lanes| == 1 && s.srv.pc == SetPhase(Copying, CreateRegion(s.reg.current))
    requires |s.dfr.inserts.queue| == 1 && |s.dfr.deletes.queue| == 1
    ensures var d := Serve(s, 23).dfr;
      && !d.locked && d.arrived == s.dfr.arrived
      && d.drains.replays == s.dfr.drains.replays + s.dfr.inserts.queue + s.dfr.deletes.queue
  {
    hide Serve, Step;
    ServeInParts(s, 19, 4);
    ToDrain(s);
    DrainStage(Serve(s, 19));
  }

  lemma HandlersArrive(s: State)
    requires Shaped(s) && s.reg.blocked && s.dfr == Initial(3, 1, 0, 1, {}).dfr
    ensures var t := Run(s, Handlers());
      && t.reg == s.reg && t.srv == s.srv && t.epochSlots == s.epochSlots
      && t.dfr == Deferral(false, [], Log([Late()[1]], [Late()[1]], []), Log([Late()[0]], [Late()[0]], []), Late(),
                           Drains([], Late(), []))
  {
    var h := Handlers();
    var a, b := h[..2], h[2..];
    assert h == a + b && a == [h[0]] + [h[1]] && b == [h[2]] + [h[3]];
    RunInParts(s, a, b);
    RunInParts(s, [h[0]], [h[1]]);
    OneStep(s, h[0]);
    var s1 := Step(s, h[0]);
    StepShaped(s, h[0]);
    OneStep(s1, h[1]);
    var s2 := Step(s1, h[1]);
    StepShaped(s1, h[1]);
    RunInParts(s2, [h[2]], [h[3]]);
    OneStep(s2, h[2]);
    var s3 := Step(s2, h[2]);
    StepShaped(s2, h[2]);
    OneStep(s3, h[3]);
    assert s1.dfr.onTheWay == [Deletion(7)];
    assert s2.dfr.onTheWay == [];
    assert s3.dfr.onTheWay == [Insertion(7, 1)];
    assert Step(s3, h[3]).dfr.onTheWay == [];
  }

  // ----- mutations that miss the drain -----

  /** Over every run from a published registry, in every phase but the draining one: no drain is under way, what
      arrived is what the drains replayed and what came after the last of them, and the queues are empty exactly if
      nothing did. */
  lemma QueuesOutsideDrain(slots: nat, laneCount: nat, bulkLoaded: nat, entries: nat, clients: set<nat>,
      actions: seq<Action>)
    requires slots >= 3 && laneCount > 0
    ensures var s := Run(Initial(slots, laneCount, bulkLoaded, entries, clients), actions);
      var d := s.dfr;
      !s.reg.phase.DrainOld? ==>
        && !d.locked && d.arrived == Flat(d.drains.batches) + d.drains.late
        && (d.inserts.queue == [] && d.deletes.queue == [] <==> d.drains.late == [])
  {
    var s0 := Initial(slots, laneCount, bulkLoaded, entries, clients);
    InitialIsSafe(slots, laneCount, bulkLoaded, entries, clients);
    EveryRunDrains(s0, actions);
    var s := Run(s0, actions);
    hide Run, Initial, Flat, Sorted, Kind;
    ControlShape(s);
    if !s.reg.phase.DrainOld? {
      assert !s.dfr.locked;
      QueuesAreEmptyUnlessLate(s);
    }
  }

  /** The flag is clear in every state of the run. */
  ghost predicate FlagStaysClear(s: State, actions: seq<Action>)
    requires Shaped(s)
  {
    forall i {:trigger actions[..i]} :: 0 <= i <= |actions| ==> !Run(s, actions[..i]).reg.blocked
  }

  /** Some run without another resize leaves a mutation queued. */
  ghost predicate MayWait(s: State)
    requires Shaped(s)
  {
    exists actions :: FlagStaysClear(s, actions) && Run(s, actions).dfr.drains.late != []
  }

  /** When the flag is clear and nothing is queued, a mutation may still be left waiting for another resize exactly if a
      handler that read the flag while it was set is on its way. */
  lemma WaitsExactlyBehindFlag(s: State)
    requires SafetyInv(s) && DrainInv(s) && !s.reg.blocked && !s.dfr.locked && s.dfr.drains.late == []
    ensures MayWait(s) <==> s.dfr.onTheWay != []
  {
    if s.dfr.onTheWay != [] {
      HandlerMayEnqueue(s);
    } else {
      forall actions | FlagStaysClear(s, actions) ensures Run(s, actions).dfr.drains.late == [] {
        NobodyEnqueues(s, actions);
      }
    }
  }

  lemma HandlerMayEnqueue(s: State)
    requires SafetyInv(s) && DrainInv(s) && !s.reg.blocked && !s.dfr.locked && s.dfr.drains.late == []
    requires s.dfr.onTheWay != []
    ensures MayWait(s)
  {
    var a := [Enqueue(0)];
    QueuesAreEmptyUnlessLate(s);
    OneStep(s, a[0]);
    RunNothing(s);
    hide ControlInv, FlagInv, DeferralInv, DrainInv, Run;
    assert a[..0] == [] && a[..1] == a;
    assert FlagStaysClear(s, a);
  }

  lemma {:induction false} NobodyEnqueues(s: State, actions: seq<Action>)
    requires Shaped(s) && s.dfr.onTheWay == [] && s.dfr.drains.late == [] && FlagStaysClear(s, actions)
    ensures Run(s, actions).dfr.onTheWay == [] && Run(s, actions).dfr.drains.late == []
  {
    if actions != [] {
      var n := |actions| - 1;
      var first := actions[..n];
      forall i | 0 <= i <= |first| ensures !Run(s, first[..i]).reg.blocked { assert first[..i] == actions[..i]; }
      NobodyEnqueues(s, first);
      assert !Run(s, actions[..n]).reg.blocked;
      QuietStep(Run(s, first), actions[n]);
      hide Step;
    }
  }

  lemma QuietStep(s: State, a: Action)
    requires Shaped(s) && s.dfr.onTheWay == [] && s.dfr.drains.late == [] && !s.reg.blocked
    ensures Step(s, a).dfr.onTheWay == [] && Step(s, a).dfr.drains.late == []
  {
  }

  /** A handler reads the flag during a resize and enqueues after it. */
  function MissingRun(): (actions: seq<Action>) {
    Times(6) + [CheckFlag(Deletion(7))] + Times(32) + [Enqueue(0)]
  }

  /** A reachable state, back in the normal phase with the flag clear and the drain finished, whose deletion is still
      queued. */
  lemma MutationMissesDrain()
    ensures var s := Run(Initial(3, 1, 0, 1, {}), MissingRun());
      && s.reg.phase.Normal? && s.srv.pc.Idle? && !s.reg.blocked && !s.dfr.locked
      && |s.dfr.drains.batches| == 1 && s.dfr.deletes.queue == [Deletion(7)] && s.dfr.drains.replays == []
  {
    var s0 := Initial(3, 1, 0, 1, {});
    var a := Times(6) + [CheckFlag(Deletion(7))];
    var s := Run(s0, a);
    RunInParts(s0, a, Times(32));
    RunInParts(s0, a + Times(32), [Enqueue(0)]);
    OnTheWay();
    ServeIsRun(s, 32);
    RestWithoutQueues(s);
    var t := Serve(s, 32);
    OneStep(t, Enqueue(0));
    hide Run, Serve, Initial, Times, Step;
    LastEnqueue(t);
  }

  lemma LastEnqueue(t: State)
    requires Shaped(t) && !t.dfr.locked && t.dfr.onTheWay == [Deletion(7)] && t.dfr.deletes.queue == []
    ensures var s := Step(t, Enqueue(0));
      s.reg == t.reg && s.srv == t.srv && s.dfr.deletes.queue == [Deletion(7)] && !s.dfr.locked
    ensures var s := Step(t, Enqueue(0));
      s.dfr.drains.batches == t.dfr.drains.batches && s.dfr.drains.replays == t.dfr.drains.replays
  {
  }

  lemma OnTheWay()
    ensures var s := Run(Initial(3, 1, 0, 1, {}), Times(6) + [CheckFlag(Deletion(7))]);
      && |s.reg.lanes| == 1 && s.srv.pc == SetPhase(Copying, CreateRegion(s.reg.current)) && s.reg.current == 1
      && s.dfr == Initial(3, 1, 0, 1, {}).dfr.(onTheWay := [Deletion(7)])
  {
    var s0 := Initial(3, 1, 0, 1, {});
    RunInParts(s0, Times(6), [CheckFlag(Deletion(7))]);
    ServeIsRun(s0, 6);
    SixSteps(s0);
    OneStep(Run(s0, Times(6)), CheckFlag(Deletion(7)));
    hide Run, Serve, Times;
  }

  /** The rest of a resize with nothing in the queues. */
  lemma RestWithoutQueues(s: State)
    requires Shaped(s) && |s.reg.lanes| == 1 && s.srv.pc == SetPhase(Copying, CreateRegion(s.reg.current))
    requires s.dfr.inserts.queue == [] && s.dfr.deletes.queue == [] && s.reg.current > 0
    ensures var t := Serve(s, 32);
      && t.reg.phase.Normal? && t.srv.pc.Idle? && !t.reg.blocked
      && t.dfr == s.dfr.(locked := false, drains := EndDrain(s.dfr.drains))
  {
    hide Serve, Step;
    ServeInParts(s, 19, 13);
    ToDrain(s);
    var t := Serve(s, 19);
    ServeInParts(t, 2, 11);
    DrainStage(t);
    Rejoin(s.dfr.inserts.replayed, []);
    Rejoin(s.dfr.deletes.replayed, []);
    Rejoin(s.dfr.drains.replays, []);
    ReclaimStage(Serve(t, 2));
  }
}
