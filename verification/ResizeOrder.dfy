/** In which order the deferred mutations are replayed, over whole runs of the resize machine. */
module ResizeOrder {
  import opened Hashing
  import opened ResizeMachine
  import opened ResizeSafety

  // ----- one batch -----

  /** No deletion arrived before an insertion. */
  predicate InsertionsFirst(ms: seq<Mutation>) {
    forall i, j :: 0 <= i < j < |ms| && ms[j].Insertion? ==> ms[i].Insertion?
  }

  /** Insertions before deletions is the order of arrival of a batch exactly when every insertion came first. */
  lemma {:induction false} BatchKeepsOrder(ms: seq<Mutation>)
    ensures Kind(ms, true) + Kind(ms, false) == ms <==> InsertionsFirst(ms)
  {
    KindsAreSorted(ms);
    if InsertionsFirst(ms) {
      SortedIsKept(ms);
    }
  }

  lemma {:induction false} KindsAreSorted(ms: seq<Mutation>)
    ensures forall m :: m in Kind(ms, true) ==> m.Insertion?
    ensures forall m :: m in Kind(ms, false) ==> m.Deletion?
    ensures InsertionsFirst(Kind(ms, true) + Kind(ms, false))
  {
    if ms != [] { KindsAreSorted(ms[..|ms| - 1]); }
    var a, b := Kind(ms, true), Kind(ms, false);
    var both: seq<Mutation> := a + b;
    assert forall i | 0 <= i < |both| :: both[i] in if i < |a| then a else b;
    forall i, j | 0 <= i < j < |both| && both[j].Insertion? ensures both[i].Insertion? {
      assert both[j] in if j < |a| then a else b;
    }
  }

  lemma {:induction false} SortedIsKept(ms: seq<Mutation>)
    requires InsertionsFirst(ms)
    ensures Kind(ms, true) + Kind(ms, false) == ms
    ensures ms != [] && ms[|ms| - 1].Insertion? ==> Kind(ms, false) == []
  {
    if ms != [] {
      var n := |ms| - 1;
      var rest := ms[..n];
      SortedIsKept(rest);
      assert ms == rest + [ms[n]];
      if ms[n].Insertion? && n > 0 {
        assert rest[n - 1].Insertion?;
      }
      if ms[n].Insertion? {
        assert Kind(rest, false) == [];
        assert Kind(rest, true) + [] == Kind(rest, true);
      }
    }
  }

  // ----- all drains -----

  function Flat(batches: seq<seq<Mutation>>): (ms: seq<Mutation>) {
    if batches == [] then [] else Flat(batches[..|batches| - 1]) + batches[|batches| - 1]
  }

  /** What the drains of these batches replay: of each batch the insertions, then the deletions. */
  function Sorted(batches: seq<seq<Mutation>>): (ms: seq<Mutation>) {
    if batches == [] then []
    else
      var b := batches[|batches| - 1];
      Sorted(batches[..|batches| - 1]) + (Kind(b, true) + Kind(b, false))
  }

  lemma {:induction false} KindsAreAll(ms: seq<Mutation>)
    ensures |Kind(ms, true)| + |Kind(ms, false)| == |ms|
  {
    if ms != [] { KindsAreAll(ms[..|ms| - 1]); }
  }

  lemma {:induction false} SameLength(batches: seq<seq<Mutation>>)
    ensures |Sorted(batches)| == |Flat(batches)|
  {
    if batches != [] {
      SameLength(batches[..|batches| - 1]);
      KindsAreAll(batches[|batches| - 1]);
    }
  }

  /** The drains replay everything in order of arrival exactly when no batch has a deletion before an insertion. */
  lemma {:induction false} DrainsKeepOrder(batches: seq<seq<Mutation>>)
    ensures Sorted(batches) == Flat(batches) <==> forall i :: 0 <= i < |batches| ==> InsertionsFirst(batches[i])
  {
    if batches != [] {
      var n := |batches| - 1;
      var rest, b := batches[..n], batches[n];
      DrainsKeepOrder(rest);
      SameLength(rest);
      BatchKeepsOrder(b);
      KindsAreAll(b);
      EqualParts(Sorted(rest), Kind(b, true) + Kind(b, false), Flat(rest), b);
      assert (forall i :: 0 <= i < |batches| ==> InsertionsFirst(batches[i]))
        <==> InsertionsFirst(b) && forall i :: 0 <= i < |rest| ==> InsertionsFirst(rest[i]);
    }
  }

  lemma EqualParts(a: seq<Mutation>, b: seq<Mutation>, c: seq<Mutation>, d: seq<Mutation>)
    requires |a| == |c|
    ensures a + b == c + d <==> a == c && b == d
  {
    assert (a + b)[..|a|] == a && (a + b)[|a|..] == b;
    assert (c + d)[..|c|] == c && (c + d)[|c|..] == d;
  }

  // ----- the machine -----

  /** The queues hold what has arrived since the last drain, less what the drain under way has already replayed. */
  predicate DrainInv(s: State) {
    var d := s.dfr.drains;
    && s.dfr.arrived == Flat(d.batches) + d.late
    && match s.srv.pc
       case ReplayInserts =>
         && s.dfr.locked && s.dfr.deletes.queue == Kind(d.late, false)
         && d.replays + s.dfr.inserts.queue == Sorted(d.batches) + Kind(d.late, true)
       case ReplayDeletes =>
         && s.dfr.locked && s.dfr.inserts.queue == []
         && d.replays + s.dfr.deletes.queue == Sorted(d.batches) + (Kind(d.late, true) + Kind(d.late, false))
       case _ =>
         && !s.dfr.locked && d.replays == Sorted(d.batches)
         && s.dfr.inserts.queue == Kind(d.late, true) && s.dfr.deletes.queue == Kind(d.late, false)
  }

  lemma DrainPreserved(s: State, a: Action)
    requires ControlInv(s) && DrainInv(s)
    ensures DrainInv(Step(s, a))
  {
    hide ControlInv, Kind, Flat, Sorted;
    ControlShape(s);
    var d, t := s.dfr.drains, Step(s, a);
    match a {
      case ServerStep(choice) => ServerKeepsDrain(s, choice);
      case Enqueue(i) => EnqueueKeepsDrain(s, i);
      case _ => assert t.dfr == s.dfr.(onTheWay := t.dfr.onTheWay) && t.srv == s.srv;
    }
  }

  lemma EnqueueKeepsDrain(s: State, i: nat)
    requires Shaped(s) && DrainInv(s)
    ensures DrainInv(s.(dfr := StepEnqueue(s.dfr, i)))
  {
    hide Flat, Sorted, Kind;
    if !s.dfr.locked && i < |s.dfr.onTheWay| {
      var d, m := s.dfr.drains, s.dfr.onTheWay[i];
      KindAppend(d.late, m, true);
      KindAppend(d.late, m, false);
      assert Flat(d.batches) + d.late + [m] == Flat(d.batches) + (d.late + [m]);
    }
  }

  lemma ServerKeepsDrain(s: State, choice: bool)
    requires Shaped(s) && PcFits(s) && DrainInv(s)
    ensures DrainInv(StepServer(s, choice))
  {
    hide Flat, Sorted, Kind, PcFits;
    var d := s.dfr.drains;
    if s.srv.pc.ReplayInserts? && s.dfr.inserts.queue != [] {
      TakeFront(d.replays, s.dfr.inserts.queue);
    } else if s.srv.pc.ReplayInserts? {
      assert d.replays + [] == d.replays;
      assert Sorted(d.batches) + Kind(d.late, true) + Kind(d.late, false)
        == Sorted(d.batches) + (Kind(d.late, true) + Kind(d.late, false));
    } else if s.srv.pc.ReplayDeletes? && s.dfr.deletes.queue != [] {
      TakeFront(d.replays, s.dfr.deletes.queue);
    } else if s.srv.pc.ReplayDeletes? {
      assert d.replays + [] == d.replays;
      OneMoreBatch(d.batches, d.late);
    } else {
      OtherStepsLeaveQueues(s, choice);
      assert Sorted(d.batches) + Kind(d.late, true) == d.replays + s.dfr.inserts.queue;
    }
  }

  lemma TakeFront(log: seq<Mutation>, queue: seq<Mutation>)
    requires queue != []
    ensures log + [queue[0]] + queue[1..] == log + queue
  {
  }

  lemma OneMoreBatch(batches: seq<seq<Mutation>>, b: seq<Mutation>)
    ensures Flat(batches + [b]) == Flat(batches) + b && Kind([], true) == [] == Kind([], false)
    ensures Sorted(batches + [b]) == Sorted(batches) + (Kind(b, true) + Kind(b, false))
  {
    assert (batches + [b])[..|batches|] == batches;
  }

  /** Outside a drain the server touches the queues only by taking their lock. */
  lemma OtherStepsLeaveQueues(s: State, choice: bool)
    requires Shaped(s) && PcFits(s) && !s.srv.pc.ReplayInserts? && !s.srv.pc.ReplayDeletes?
    ensures var t := StepServer(s, choice);
      && t.dfr == s.dfr.(locked := t.srv.pc.ReplayInserts? || s.dfr.locked) && !t.srv.pc.ReplayDeletes?
  {
  }

  /** Every run keeps the drains and the queues in agreement. */
  lemma {:induction false} EveryRunDrains(s: State, actions: seq<Action>)
    requires SafetyInv(s) && DrainInv(s)
    ensures SafetyInv(Run(s, actions)) && DrainInv(Run(s, actions))
  {
    EveryRunIsSafe(s, actions);
    if actions != [] {
      var n := |actions| - 1;
      EveryRunDrains(s, actions[..n]);
      DrainPreserved(Run(s, actions[..n]), actions[n]);
      hide DrainInv, Step, ControlInv, FlagInv, DeferralInv;
    }
  }

  /** The deferred mutations replayed so far are the first ones that arrived, in their order of arrival. */
  predicate OrderKept(d: Deferral) {
    |d.drains.replays| <= |d.arrived| && d.drains.replays == d.arrived[..|d.drains.replays|]
  }

  /** Over every run from a published registry, whenever no drain is under way: mutations have been replayed in order of
      arrival exactly if no finished drain found a deletion before an insertion. */
  lemma ReplayKeepsArrivalOrder(slots: nat, laneCount: nat, bulkLoaded: nat, entries: nat, clients: set<nat>,
      actions: seq<Action>)
    requires slots >= 3 && laneCount > 0
    ensures var d := Run(Initial(slots, laneCount, bulkLoaded, entries, clients), actions).dfr;
      !d.locked ==> (OrderKept(d) <==> forall i :: 0 <= i < |d.drains.batches| ==> InsertionsFirst(d.drains.batches[i]))
  {
    var s0 := Initial(slots, laneCount, bulkLoaded, entries, clients);
    InitialIsSafe(slots, laneCount, bulkLoaded, entries, clients);
    EveryRunDrains(s0, actions);
    var d := Run(s0, actions).dfr;
    DrainsKeepOrder(d.drains.batches);
    SameLength(d.drains.batches);
    if !d.locked {
      assert d.arrived[..|d.drains.replays|] == Flat(d.drains.batches);
    }
  }

  /** Whenever no drain is under way, the queues are empty exactly if nothing has arrived since the last one. A handler
      that read the flag while it was set may enqueue after the drain: its mutation then waits for another resize. */
  lemma QueuesAreEmptyUnlessLate(s: State)
    requires DrainInv(s) && !s.dfr.locked
    ensures s.dfr.inserts.queue == [] && s.dfr.deletes.queue == [] <==> s.dfr.drains.late == []
    ensures s.dfr.drains.late == [] <==> s.dfr.arrived == Flat(s.dfr.drains.batches)
  {
    KindsAreAll(s.dfr.drains.late);
  }
}
