/** Online resizing: a server thread walks a six-state machine, publishing a new versioned region per
    resize, while clients allocate packed-array indices with fetch-and-add and request handlers defer
    structural mutations. One step is one atomic store, load or fetch-and-add of one thread; a run is any
    interleaving of such steps. */
module ResizeMachine {
  import opened Hashing

  datatype Phase = Normal | PreResize | Copying | ReadyToSwitch | DrainOld | GcPending

  /** Structural mutations are refused in these phases. */
  predicate Blocks(p: Phase) {
    p.Copying? || p.ReadyToSwitch? || p.DrainOld?
  }

  /** The record of one versioned region. */
  datatype Epoch = Epoch(version: nat, entries: nat, published: bool, cleanup: bool)

  /** What the server thread does next. Changing the phase is three stores: the flag, the phase, the generation. */
  datatype Pc =
    | Idle
    | SetFlag(target: Phase, after: Pc) | SetPhase(target: Phase, after: Pc) | BumpAfterPhase(after: Pc)
    | CreateRegion(oldVer: nat)
    | WriteRecord(oldVer: nat, newVer: nat)
    | ResetLane(oldVer: nat, newVer: nat, lane: nat)
    | Publish(oldVer: nat, newVer: nat)
    | StorePrevious(oldVer: nat, newVer: nat)
    | StoreCurrent(oldVer: nat, newVer: nat)
    | BumpAfterSwitch(oldVer: nat, newVer: nat)
    | TakeOver(oldVer: nat, newVer: nat)
    | ReplayInserts | ReplayDeletes | AllowCleanup
    | ReleaseRegion | ClearPrevious | BumpAfterGc

  /** A client between its loads: it has picked an epoch, or also fetched an index. */
  datatype Client = Resting | Picked(version: nat) | Fetched(version: nat, index: nat)

  datatype Mutation = Insertion(key: Key, value: Value) | Deletion(key: Key)

  datatype Grant = Grant(index: nat, version: nat)

  /** The shared registry. `lanes` are the next free index of each allocation lane. */
  datatype Registry = Registry(phase: Phase, blocked: bool, current: nat, previous: nat, generation: nat,
                               epochs: seq<Epoch>, lanes: seq<nat>)

  /** The server thread: its position, the old region waiting to be reclaimed (0: none), the region it serves,
      and the regions it has unlinked. */
  datatype Server = Server(pc: Pc, pendingOld: nat, region: nat, released: set<nat>)

  /** Mutations deferred during a resize: handlers on their way, the two queues, what was enqueued in either of them
      in order of arrival, and what the drains have made of it. */
  datatype Deferral = Deferral(locked: bool, onTheWay: seq<Mutation>, inserts: Log, deletes: Log,
      arrived: seq<Mutation>,
      drains: Drains)

  /** The arrivals that each finished drain has replayed, the arrivals since, and all replays of both queues in the
      order in which they happened. */
  datatype Drains = Drains(batches: seq<seq<Mutation>>, late: seq<Mutation>, replays: seq<Mutation>)

  /** A first-in first-out queue with everything ever enqueued and everything replayed so far. */
  datatype Log = Log(queue: seq<Mutation>, enqueued: seq<Mutation>, replayed: seq<Mutation>)

  /** Clients and the indices granted to them. `base` is where the lanes last started, `bounds` remembers
      the capacity of every version. */
  datatype Allocation = Allocation(clients: map<nat, Client>, grants: seq<Grant>, base: nat, bounds: map<nat, nat>)

  datatype State = State(epochSlots: nat, bulkLoaded: nat, reg: Registry, srv: Server, dfr: Deferral, alc: Allocation)

  const MAX_DEFERRED: nat := 1_000_000

  /** One step of one thread. `choice` resolves what the model leaves open: thresholds, timers, allocation failure. */
  datatype Action =
    | ServerStep(choice: bool)
    | CheckFlag(mutation: Mutation)
    | Enqueue(handler: nat)
    | Pick(client: nat)
    | FetchAdd(client: nat)
    | CheckBound(client: nat)

  function SlotOfVersion(slots: nat, v: nat): (i: nat)
    requires slots > 0
    ensures i < slots
  {
    Masked(v, slots)
  }

  /** The version after `v`; versions whose slot would be 0 are skipped. */
  function NextVersion(slots: nat, v: nat): (w: nat)
    requires slots > 0
    ensures w == v + 1 || w == v + 2
  {
    if SlotOfVersion(slots, v + 1) == 0 then v + 2 else v + 1
  }

  predicate Shaped(s: State) {
    s.epochSlots >= 3 && |s.reg.epochs| == s.epochSlots && |s.reg.lanes| > 0
  }

  function EpochOf(reg: Registry, v: nat): Epoch
    requires |reg.epochs| > 0
  {
    reg.epochs[SlotOfVersion(|reg.epochs|, v)]
  }

  function WithEpoch(reg: Registry, v: nat, e: Epoch): (r: Registry)
    requires |reg.epochs| > 0
    ensures |r.epochs| == |reg.epochs|
  {
    reg.(epochs := reg.epochs[SlotOfVersion(|reg.epochs|, v) := e])
  }

  function At(s: State, pc: Pc): State {
    s.(srv := s.srv.(pc := pc))
  }

  /** The server thread at rest looks at the phase. */
  function Monitor(s: State, choice: bool): State {
    if !choice then s
    else match s.reg.phase
      case Normal => At(s, SetFlag(PreResize, Idle))
      case PreResize => At(s, SetFlag(Copying, CreateRegion(s.reg.current)))
      case Copying => s
      case ReadyToSwitch => At(s, SetFlag(DrainOld, Idle))
      case DrainOld => At(s, ReplayInserts).(dfr := s.dfr.(locked := true))
      case GcPending => At(s, ReleaseRegion)
  }

  /** Stores to the registry during a resize. */
  function StepCopy(s: State): State
    requires Shaped(s)
  {
    match s.srv.pc
    case WriteRecord(o, n) =>
      var entries := 2 * EpochOf(s.reg, o).entries;
      At(s, ResetLane(o, n, 0)).(
        reg := WithEpoch(s.reg, n, Epoch(n, entries, EpochOf(s.reg, n).published, false)),
        alc := s.alc.(bounds := s.alc.bounds[n := entries]))
    case ResetLane(o, n, i) =>
      if i < |s.reg.lanes| then
        At(s, ResetLane(o, n, i + 1)).(reg := s.reg.(lanes := s.reg.lanes[i := EpochOf(s.reg, o).entries + i]))
      else At(s, Publish(o, n))
    case Publish(o, n) =>
      At(s, StorePrevious(o, n)).(reg := WithEpoch(s.reg, n, EpochOf(s.reg, n).(published := true)))
    case StorePrevious(o, n) =>
      At(s, StoreCurrent(o, n)).(reg := s.reg.(previous := o))
    case StoreCurrent(o, n) =>
      At(s, BumpAfterSwitch(o, n)).(reg := s.reg.(current := n), alc := s.alc.(base := EpochOf(s.reg, o).entries))
    case _ => s
  }

  /** Takes the front of a queue. */
  function ReplayOne(l: Log): Log
    requires l.queue != []
  {
    Log(l.queue[1..], l.enqueued, l.replayed + [l.queue[0]])
  }

  function Replayed(d: Drains, m: Mutation): Drains {
    d.(replays := d.replays + [m])
  }

  /** The drain gives up the lock: what had arrived is the batch it has replayed. */
  function EndDrain(d: Drains): Drains {
    Drains(d.batches + [d.late], [], d.replays)
  }

  function StepServer(s: State, choice: bool): State
    requires Shaped(s)
  {
    match s.srv.pc
    case Idle => Monitor(s, choice)
    case SetFlag(target, after) => At(s, SetPhase(target, after)).(reg := s.reg.(blocked := Blocks(target)))
    case SetPhase(target, after) => At(s, BumpAfterPhase(after)).(reg := s.reg.(phase := target))
    case BumpAfterPhase(after) => At(s, after).(reg := s.reg.(generation := s.reg.generation + 1))
    case CreateRegion(o) => At(s, if choice then WriteRecord(o, NextVersion(s.epochSlots, o))
        else SetFlag(Normal, Idle))
    case BumpAfterSwitch(o, n) =>
      At(s, SetFlag(ReadyToSwitch, TakeOver(o, n))).(reg := s.reg.(generation := s.reg.generation + 1))
    case TakeOver(o, n) => s.(srv := Server(Idle, o, n, s.srv.released))
    case ReplayInserts =>
      if s.dfr.inserts.queue == [] then At(s, ReplayDeletes)
      else s.(dfr := s.dfr.(inserts := ReplayOne(s.dfr.inserts),
          drains := Replayed(s.dfr.drains, s.dfr.inserts.queue[0])))
    case ReplayDeletes =>
      if s.dfr.deletes.queue == [] then
        At(s, AllowCleanup).(dfr := s.dfr.(locked := false, drains := EndDrain(s.dfr.drains)))
      else s.(dfr := s.dfr.(deletes := ReplayOne(s.dfr.deletes),
          drains := Replayed(s.dfr.drains, s.dfr.deletes.queue[0])))
    case AllowCleanup =>
      var pending := s.srv.pendingOld;
      At(s, SetFlag(GcPending, Idle)).(
        reg := if pending > 0 then WithEpoch(s.reg, pending, EpochOf(s.reg, pending).(cleanup := true)) else s.reg)
    case ReleaseRegion =>
      var pending := s.srv.pendingOld;
      s.(srv := Server(ClearPrevious, 0, s.srv.region,
          if pending > 0 then s.srv.released + {pending} else s.srv.released))
    case ClearPrevious => At(s, BumpAfterGc).(reg := s.reg.(previous := 0))
    case BumpAfterGc => At(s, SetFlag(Normal, Idle)).(reg := s.reg.(generation := s.reg.generation + 1))
    case _ => StepCopy(s)
  }

  /** Appends unless the queue is full, in which case the mutation is dropped. */
  function Append(l: Log, m: Mutation): Log {
    if |l.queue| >= MAX_DEFERRED then l else Log(l.queue + [m], l.enqueued + [m], l.replayed)
  }

  function Arrive(l: Log, arrived: seq<Mutation>, m: Mutation): seq<Mutation> {
    if |l.queue| >= MAX_DEFERRED then arrived else arrived + [m]
  }

  /** A handler that reads the flag set is going to defer its mutation. */
  function StepCheckFlag(s: State, m: Mutation): State {
    if s.reg.blocked then s.(dfr := s.dfr.(onTheWay := s.dfr.onTheWay + [m])) else s
  }

  /** A handler enqueues under the queue lock. */
  function StepEnqueue(d: Deferral, i: nat): Deferral {
    if d.locked || i >= |d.onTheWay| then d
    else
      var m, rest := d.onTheWay[i], d.onTheWay[..i] + d.onTheWay[i + 1..];
      var l := if m.Insertion? then d.inserts else d.deletes;
      var e := d.(onTheWay := rest, arrived := Arrive(l, d.arrived, m),
                  drains := d.drains.(late := Arrive(l, d.drains.late, m)));
      if m.Insertion? then e.(inserts := Append(l, m)) else e.(deletes := Append(l, m))
  }

  function LaneOf(lanes: seq<nat>, c: nat): (i: nat)
    requires |lanes| > 0
    ensures i < |lanes|
  {
    Masked(c, |lanes|)
  }

  function StepPick(s: State, c: nat): State {
    if c in s.alc.clients && s.alc.clients[c].Resting?
    then s.(alc := s.alc.(clients := s.alc.clients[c := Picked(s.reg.current)])) else s
  }

  function StepFetchAdd(s: State, c: nat): State
    requires |s.reg.lanes| > 0
  {
    if c in s.alc.clients && s.alc.clients[c].Picked? then
      var i := LaneOf(s.reg.lanes, c);
      var x := s.reg.lanes[i];
      s.(alc := s.alc.(clients := s.alc.clients[c := Fetched(s.alc.clients[c].version, x)]),
         reg := s.reg.(lanes := s.reg.lanes[i := x + |s.reg.lanes|]))
    else s
  }

  /** The comparison with the bound of the picked epoch, whose slot is assumed not to have been reused. */
  function StepCheckBound(s: State, c: nat): State
    requires Shaped(s)
  {
    if c in s.alc.clients && s.alc.clients[c].Fetched? &&
        EpochOf(s.reg, s.alc.clients[c].version).version == s.alc.clients[c].version then
      var v, x := s.alc.clients[c].version, s.alc.clients[c].index;
      var clients := s.alc.clients[c := Resting];
      if x >= EpochOf(s.reg, v).entries then s.(alc := s.alc.(clients := clients))
      else s.(alc := s.alc.(clients := clients, grants := s.alc.grants + [Grant(x, v)]))
    else s
  }

  function Step(s: State, a: Action): State
    requires Shaped(s)
  {
    match a
    case ServerStep(choice) => StepServer(s, choice)
    case CheckFlag(m) => StepCheckFlag(s, m)
    case Enqueue(i) => s.(dfr := StepEnqueue(s.dfr, i))
    case Pick(c) => StepPick(s, c)
    case FetchAdd(c) => StepFetchAdd(s, c)
    case CheckBound(c) => StepCheckBound(s, c)
  }

  lemma StepShaped(s: State, a: Action)
    requires Shaped(s)
    ensures Shaped(Step(s, a)) && Step(s, a).epochSlots == s.epochSlots && |Step(s, a).reg.lanes| == |s.reg.lanes|
    ensures Step(s, a).bulkLoaded == s.bulkLoaded
  {
  }

  /** The state after a run. */
  function Run(s: State, actions: seq<Action>): (t: State)
    requires Shaped(s)
    ensures Shaped(t)
  {
    if actions == [] then s
    else
      var t := Run(s, actions[..|actions| - 1]);
      StepShaped(t, actions[|actions| - 1]);
      Step(t, actions[|actions| - 1])
  }

  /** The registry as the server publishes it: version 1 in slot 1, lanes starting after the bulk-loaded entries. */
  function Initial(slots: nat, laneCount: nat, bulkLoaded: nat, entries: nat, clients: set<nat>): (s: State)
    requires slots >= 3 && laneCount > 0
    ensures Shaped(s)
  {
    State(slots, bulkLoaded,
      Registry(Normal, false, 1, 0, 0,
        seq(slots, i => if i == 1 then Epoch(1, entries, true, false) else Epoch(0, 0, false, false)),
        seq(laneCount, i => bulkLoaded + i)),
      Server(Idle, 0, 1, {}),
      Deferral(false, [], Log([], [], []), Log([], [], []), [], Drains([], [], [])),
      Allocation(map c | c in clients :: Resting, [], bulkLoaded, map[1 := entries]))
  }
}
