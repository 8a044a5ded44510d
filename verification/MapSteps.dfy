/**
 The registry at the granularity of its single map operations: `register`, `deregister`
 and `close_all` update `by_device` and `by_shard` in separate steps
 (crates/fanout-worker/src/connection_registry.rs), and other tasks may run in between.
 The two indexes then no longer agree in general; this module shows that on a concrete
 run and proves what every interleaving does keep.
 */
module MapSteps {
  import opened Options
  import opened Locations
  import opened Registry

  type TaskId = nat

  /** Where an operation stands between two map steps. */
  datatype Task =
    | Allocated(d: DeviceId, c: Connection)
    | Inserted(d: DeviceId, c: Connection, previous: Option<Connection>)
    | Cleaned(d: DeviceId, c: Connection)
    | Removed(d: DeviceId, c: Connection)
    | ClearedDevices

  datatype Step =
    | Allocate(t: TaskId, d: DeviceId, s: Shard)
    | InsertDevice(t: TaskId)
    | CleanShard(t: TaskId)
    | InsertShard(t: TaskId)
    | RemoveDevice(t: TaskId, d: DeviceId, id: ConnId)
    | RemoveShard(t: TaskId)
    | ClearDevices(t: TaskId)
    | ClearShards(t: TaskId)

  /** `owner` records which device and shard an id was handed out for. */
  datatype State = State(
    nextId: ConnId,
    byDevice: map<DeviceId, Connection>,
    byShard: map<Shard, map<DeviceId, Connection>>,
    tasks: map<TaskId, Task>,
    owner: map<ConnId, (DeviceId, Shard)>)

  const NOTHING := State(0, map[], map[], map[], map[])

  function Apply(st: State, step: Step): State {
    match step
    case Allocate(t, d, s) =>
      if t in st.tasks then st
      else
        var c := Connection(st.nextId + 1, s);
        st.(nextId := c.id, tasks := st.tasks[t := Allocated(d, c)], owner := st.owner[c.id := (d, s)])
    case InsertDevice(t) =>
      if t !in st.tasks || !st.tasks[t].Allocated? then st
      else
        var Allocated(d, c) := st.tasks[t];
        var previous := if d in st.byDevice then Some(st.byDevice[d]) else None;
        st.(byDevice := st.byDevice[d := c], tasks := st.tasks[t := Inserted(d, c, previous)])
    case CleanShard(t) =>
      if t !in st.tasks || !st.tasks[t].Inserted? then st
      else
        var Inserted(d, c, previous) := st.tasks[t];
        st.(byShard := if previous.Some? then Unindex(st.byShard, d, previous.value) else st.byShard,
            tasks := st.tasks[t := Cleaned(d, c)])
    case InsertShard(t) =>
      if t !in st.tasks || !st.tasks[t].Cleaned? then st
      else st.(byShard := Index(st.byShard, st.tasks[t].d, st.tasks[t].c), tasks := st.tasks - {t})
    case RemoveDevice(t, d, id) =>
      if t in st.tasks || !(d in st.byDevice && st.byDevice[d].id == id) then st
      else st.(byDevice := st.byDevice - {d}, tasks := st.tasks[t := Removed(d, st.byDevice[d])])
    case RemoveShard(t) =>
      if t !in st.tasks || !st.tasks[t].Removed? then st
      else st.(byShard := Unindex(st.byShard, st.tasks[t].d, st.tasks[t].c), tasks := st.tasks - {t})
    case ClearDevices(t) =>
      if t in st.tasks then st else st.(byDevice := map[], tasks := st.tasks[t := ClearedDevices])
    case ClearShards(t) =>
      if t !in st.tasks || !st.tasks[t].ClearedDevices? then st
      else st.(byShard := map[], tasks := st.tasks - {t})
  }

  function Run(st: State, steps: seq<Step>): State {
    if steps == [] then st else Apply(Run(st, steps[..|steps| - 1]), steps[|steps| - 1])
  }

  // ------------------------------------------------------------------
  // What survives every interleaving
  // ------------------------------------------------------------------

  /** The connection is the one its id was handed out for, to this device. */
  predicate Genuine(st: State, d: DeviceId, c: Connection) {
    c.id in st.owner && st.owner[c.id] == (d, c.shard)
  }

  predicate GenuineTask(st: State, task: Task) {
    match task
    case Allocated(d, c) => Genuine(st, d, c)
    case Inserted(d, c, previous) => Genuine(st, d, c) && (previous.Some? ==> Genuine(st, d, previous.value))
    case Cleaned(d, c) => Genuine(st, d, c)
    case Removed(d, c) => Genuine(st, d, c)
    case ClearedDevices => true
  }

  ghost predicate Survives(st: State) {
    && (forall id :: id in st.owner <==> 1 <= id <= st.nextId)
    && (forall d :: d in st.byDevice ==> Genuine(st, d, st.byDevice[d]))
    && (forall s, d :: s in st.byShard && d in st.byShard[s] ==>
          Genuine(st, d, st.byShard[s][d]) && st.byShard[s][d].shard == s)
    && (forall t :: t in st.tasks ==> GenuineTask(st, st.tasks[t]))
  }

  lemma StepSurvives(st: State, step: Step)
    requires Survives(st)
    ensures Survives(Apply(st, step))
  {
    match step {
      case Allocate(t, d, s) => AllocateSurvives(st, t, d, s);
      case CleanShard(_) => ShardStepSurvives(st, step);
      case InsertShard(_) => ShardStepSurvives(st, step);
      case RemoveShard(_) => ShardStepSurvives(st, step);
      case ClearShards(_) => ShardStepSurvives(st, step);
      case _ =>
    }
  }

  lemma ShardStepSurvives(st: State, step: Step)
    requires Survives(st)
    requires step.CleanShard? || step.InsertShard? || step.RemoveShard? || step.ClearShards?
    ensures Survives(Apply(st, step))
  {
  }

  lemma AllocateSurvives(st: State, t: TaskId, d: DeviceId, s: Shard)
    requires Survives(st)
    ensures Survives(Apply(st, Allocate(t, d, s)))
  {
    if t !in st.tasks {
      var after := Apply(st, Allocate(t, d, s));
      forall e, c | Genuine(st, e, c) ensures Genuine(after, e, c) {
      }
      forall u | u in after.tasks ensures GenuineTask(after, after.tasks[u]) {
        if u != t {
          assert GenuineTask(st, st.tasks[u]);
        }
      }
    }
  }

  /**
   After every interleaving: an id belongs to one device and one shard wherever it
   occurs, and an entry of the shard index sits under its own shard.
   */
  lemma {:induction false} EveryInterleavingSurvives(steps: seq<Step>)
    ensures Survives(Run(NOTHING, steps))
  {
    if steps != [] {
      EveryInterleavingSurvives(steps[..|steps| - 1]);
      StepSurvives(Run(NOTHING, steps[..|steps| - 1]), steps[|steps| - 1]);
    }
  }

  /** Both of `deregister`'s steps remove entries of its own id only, from either index. */
  lemma DeregisterRemovesOwnIdOnly(st: State, step: Step, d: DeviceId, s: Shard)
    requires step.RemoveDevice? || (step.RemoveShard? && step.t in st.tasks && st.tasks[step.t].Removed?)
    ensures var own := if step.RemoveDevice? then step.id else st.tasks[step.t].c.id;
            var after := Apply(st, step);
            && (d in st.byDevice && st.byDevice[d].id != own ==> d in after.byDevice && after.byDevice[d] == st.byDevice[d])
            && (d in ShardOf(st.byShard, s) && ShardOf(st.byShard, s)[d].id != own ==>
                  d in ShardOf(after.byShard, s) && ShardOf(after.byShard, s)[d] == ShardOf(st.byShard, s)[d])
  {
  }

  // ------------------------------------------------------------------
  // Uninterrupted operations are the atomic ones
  // ------------------------------------------------------------------

  /** Without interruption the four steps of `register` are `Register`. */
  lemma UninterruptedRegister(st: State, r: Registry, t: TaskId, d: DeviceId, s: Shard, loc: Location)
    requires t !in st.tasks
    requires st.nextId == r.nextId && st.byDevice == r.byDevice && st.byShard == r.byShard
    ensures var after := Apply(Apply(Apply(Apply(st, Allocate(t, d, s)), InsertDevice(t)), CleanShard(t)), InsertShard(t));
            var atomic := Register(r, d, s, loc);
            && after.nextId == atomic.nextId && after.byDevice == atomic.byDevice && after.byShard == atomic.byShard
            && after.tasks == st.tasks
  {
    var c := Connection(st.nextId + 1, s);
    var st1 := Apply(st, Allocate(t, d, s));
    var st2 := Apply(st1, InsertDevice(t));
    var previous := if d in st.byDevice then Some(st.byDevice[d]) else None;
    assert st2.tasks[t] == Inserted(d, c, previous);
    var st3 := Apply(st2, CleanShard(t));
    assert st3.tasks[t] == Cleaned(d, c);
    var after := Apply(st3, InsertShard(t));
    assert after.tasks == st.tasks;
  }

  /** Without interruption the two steps of `deregister` are `Deregister`. */
  lemma UninterruptedDeregister(st: State, r: Registry, t: TaskId, d: DeviceId, id: ConnId)
    requires t !in st.tasks
    requires st.nextId == r.nextId && st.byDevice == r.byDevice && st.byShard == r.byShard
    ensures var after := Apply(Apply(st, RemoveDevice(t, d, id)), RemoveShard(t));
            var atomic := Deregister(r, d, id);
            && after.nextId == atomic.nextId && after.byDevice == atomic.byDevice && after.byShard == atomic.byShard
            && after.tasks == st.tasks
  {
    var st1 := Apply(st, RemoveDevice(t, d, id));
    if Current(r, d, id) {
      assert st1.tasks[t] == Removed(d, r.byDevice[d]);
      assert Apply(st1, RemoveShard(t)).tasks == st.tasks;
    }
  }

  /** Without interruption the two steps of `close_all` empty both maps, as `CloseAll` does. */
  lemma UninterruptedCloseAll(st: State, r: Registry, t: TaskId)
    requires t !in st.tasks && st.nextId == r.nextId
    ensures var after := Apply(Apply(st, ClearDevices(t)), ClearShards(t));
            var atomic := CloseAll(r);
            && after.nextId == atomic.nextId && after.byDevice == atomic.byDevice && after.byShard == atomic.byShard
            && after.tasks == st.tasks
  {
    var st1 := Apply(st, ClearDevices(t));
    assert Apply(st1, ClearShards(t)).tasks == st.tasks;
  }

  // ------------------------------------------------------------------
  // One operation per device at a time is enough
  // ------------------------------------------------------------------

  predicate OnDevice(task: Task, d: DeviceId) {
    !task.ClearedDevices? && task.d == d
  }

  predicate NoClearing(st: State) {
    forall t :: t in st.tasks ==> !st.tasks[t].ClearedDevices?
  }

  /**
   The step starts nothing on a device that an unfinished operation is working on;
   `close_all` works on every device.
   */
  predicate Serial(st: State, step: Step) {
    match step
    case Allocate(_, d, _) => NoClearing(st) && forall t :: t in st.tasks ==> !OnDevice(st.tasks[t], d)
    case RemoveDevice(_, d, _) => NoClearing(st) && forall t :: t in st.tasks ==> !OnDevice(st.tasks[t], d)
    case ClearDevices(_) => st.tasks == map[]
    case _ => true
  }

  ghost predicate AllSerial(steps: seq<Step>) {
    forall i :: 0 <= i < |steps| ==> Serial(Run(NOTHING, steps[..i]), steps[i])
  }

  function CurrentOf(st: State, d: DeviceId): Option<Connection> {
    if d in st.byDevice then Some(st.byDevice[d]) else None
  }

  /** The shard index holds the device under exactly this connection, or nowhere. */
  ghost predicate IndexedAs(byShard: map<Shard, map<DeviceId, Connection>>, d: DeviceId, c: Option<Connection>) {
    forall s ::
      && (d in ShardOf(byShard, s) <==> c.Some? && c.value.shard == s)
      && (d in ShardOf(byShard, s) ==> ShardOf(byShard, s)[d] == c.value)
  }

  lemma UnindexClears(byShard: map<Shard, map<DeviceId, Connection>>, d: DeviceId, c: Connection)
    requires IndexedAs(byShard, d, Some(c))
    ensures IndexedAs(Unindex(byShard, d, c), d, None)
  {
    assert d in ShardOf(byShard, c.shard);
    forall s ensures d !in ShardOf(Unindex(byShard, d, c), s) {
      assert d in ShardOf(byShard, s) <==> c.shard == s;
    }
  }

  lemma IndexPlaces(byShard: map<Shard, map<DeviceId, Connection>>, d: DeviceId, c: Connection)
    requires IndexedAs(byShard, d, None)
    ensures IndexedAs(Index(byShard, d, c), d, Some(c))
  {
    forall s
      ensures d in ShardOf(Index(byShard, d, c), s) <==> c.shard == s
      ensures d in ShardOf(Index(byShard, d, c), s) ==> ShardOf(Index(byShard, d, c), s)[d] == c
    {
      assert d !in ShardOf(byShard, s);
    }
  }

  /** Which connection the shard index should show for the device while `task` is under way. */
  function Shown(st: State, task: Task): Option<Connection> {
    match task
    case Allocated(d, _) => CurrentOf(st, d)
    case Inserted(_, _, previous) => previous
    case Cleaned(_, _) => None
    case Removed(_, c) => Some(c)
    case ClearedDevices => None
  }

  predicate Placed(st: State, task: Task) {
    match task
    case Inserted(d, c, _) => CurrentOf(st, d) == Some(c)
    case Cleaned(d, c) => CurrentOf(st, d) == Some(c)
    case Removed(d, _) => CurrentOf(st, d) == None
    case _ => true
  }

  ghost predicate Consistent(st: State, d: DeviceId) {
    && (forall t, u :: t in st.tasks && u in st.tasks && OnDevice(st.tasks[t], d) && OnDevice(st.tasks[u], d) ==> t == u)
    && (forall t :: t in st.tasks && OnDevice(st.tasks[t], d) ==>
          Placed(st, st.tasks[t]) && IndexedAs(st.byShard, d, Shown(st, st.tasks[t])))
    && ((forall t :: t in st.tasks ==> !OnDevice(st.tasks[t], d)) ==> IndexedAs(st.byShard, d, CurrentOf(st, d)))
  }

  /** Between the two steps of `close_all`, with nothing else under way. */
  ghost predicate Clearing(st: State) {
    st.byDevice == map[] && exists t :: st.tasks == map[t := ClearedDevices]
  }

  ghost predicate Orderly(st: State, d: DeviceId) {
    (NoClearing(st) && Consistent(st, d)) || Clearing(st)
  }

  /** The step belongs to an operation on this device. */
  predicate About(st: State, step: Step, d: DeviceId) {
    match step
    case Allocate(_, e, _) => e == d
    case RemoveDevice(_, e, _) => e == d
    case ClearDevices(_) => false
    case _ => step.t in st.tasks && OnDevice(st.tasks[step.t], d)
  }

  /** A step of an operation on another device leaves this one's entries alone. */
  lemma OtherDevicesUntouched(st: State, step: Step, d: DeviceId)
    requires NoClearing(st) && !step.ClearDevices? && !About(st, step, d)
    ensures var after := Apply(st, step);
            && CurrentOf(after, d) == CurrentOf(st, d)
            && (forall s :: d in ShardOf(after.byShard, s) <==> d in ShardOf(st.byShard, s))
            && (forall s :: d in ShardOf(st.byShard, s) ==> ShardOf(after.byShard, s)[d] == ShardOf(st.byShard, s)[d])
            && (forall t :: (t in after.tasks && OnDevice(after.tasks[t], d)) <==> (t in st.tasks && OnDevice(st.tasks[t], d)))
            && (forall t :: t in st.tasks && OnDevice(st.tasks[t], d) ==> after.tasks[t] == st.tasks[t])
  {
  }

  lemma OtherStepConsistent(st: State, step: Step, d: DeviceId)
    requires NoClearing(st) && Consistent(st, d) && !step.ClearDevices? && !About(st, step, d)
    ensures Consistent(Apply(st, step), d)
  {
    var after := Apply(st, step);
    OtherDevicesUntouched(st, step, d);
    forall c | IndexedAs(st.byShard, d, c) ensures IndexedAs(after.byShard, d, c) {
    }
    forall t | t in after.tasks && OnDevice(after.tasks[t], d)
      ensures Placed(after, after.tasks[t]) && IndexedAs(after.byShard, d, Shown(after, after.tasks[t]))
    {
      assert t in st.tasks && OnDevice(st.tasks[t], d) && after.tasks[t] == st.tasks[t];
      assert Shown(after, after.tasks[t]) == Shown(st, st.tasks[t]);
    }
    if forall t :: t in after.tasks ==> !OnDevice(after.tasks[t], d) {
      assert forall t :: t in st.tasks ==> !OnDevice(st.tasks[t], d);
    }
  }

  /** The operation's own steps take the device from one expected picture to the next. */
  lemma OwnStepConsistent(st: State, step: Step, d: DeviceId)
    requires NoClearing(st) && Consistent(st, d) && Serial(st, step) && About(st, step, d)
    ensures Consistent(Apply(st, step), d)
  {
    var after := Apply(st, step);
    if after != st {
      match step {
        case Allocate(t, _, _) =>
          assert OnDevice(after.tasks[t], d);
        case InsertDevice(t) =>
          assert OnDevice(after.tasks[t], d);
        case CleanShard(t) =>
          assert OnDevice(after.tasks[t], d);
          var previous := st.tasks[t].previous;
          if previous.Some? {
            UnindexClears(st.byShard, d, previous.value);
          }
        case InsertShard(t) =>
          IndexPlaces(st.byShard, d, st.tasks[t].c);
          assert CurrentOf(after, d) == Some(st.tasks[t].c);
        case RemoveDevice(t, _, _) =>
          assert OnDevice(after.tasks[t], d);
        case RemoveShard(t) =>
          UnindexClears(st.byShard, d, st.tasks[t].c);
          assert CurrentOf(after, d) == None;
        case ClearShards(_) =>
      }
    }
  }

  lemma StepConsistent(st: State, step: Step, d: DeviceId)
    requires NoClearing(st) && Consistent(st, d) && Serial(st, step) && !step.ClearDevices?
    ensures Consistent(Apply(st, step), d)
  {
    if About(st, step, d) {
      OwnStepConsistent(st, step, d);
    } else {
      OtherStepConsistent(st, step, d);
    }
  }

  lemma ClearingSteps(st: State, step: Step, d: DeviceId)
    requires Serial(st, step) && (Clearing(st) || (NoClearing(st) && Consistent(st, d) && step.ClearDevices?))
    ensures Orderly(Apply(st, step), d)
  {
    var after := Apply(st, step);
    if Clearing(st) {
      var t :| st.tasks == map[t := ClearedDevices];
      assert t in st.tasks;
      if after != st {
        assert step == ClearShards(t) && after.tasks == map[];
      }
    } else {
      assert after.tasks == map[step.t := ClearedDevices];
    }
  }

  lemma SerialStepStaysOrderly(st: State, step: Step, d: DeviceId)
    requires Serial(st, step) && Orderly(st, d)
    ensures Orderly(Apply(st, step), d)
  {
    if Clearing(st) || step.ClearDevices? {
      ClearingSteps(st, step, d);
    } else {
      StepConsistent(st, step, d);
      NoClearingStays(st, step);
    }
  }

  lemma NoClearingStays(st: State, step: Step)
    requires NoClearing(st) && !step.ClearDevices?
    ensures NoClearing(Apply(st, step))
  {
  }

  lemma FinishedAgrees(st: State, d: DeviceId)
    requires Orderly(st, d) && st.tasks == map[]
    ensures Agrees(st, d)
  {
    forall t ensures st.tasks != map[t := ClearedDevices] {
      assert t in map[t := ClearedDevices];
    }
    assert IndexedAs(st.byShard, d, CurrentOf(st, d));
  }

  /**
   If no operation starts on a device while another one on it is unfinished, then,
   whatever the interleaving across devices, the indexes agree once all are finished.
   */
  lemma {:induction false} SerialPerDeviceAgrees(steps: seq<Step>, d: DeviceId)
    requires AllSerial(steps)
    ensures Orderly(Run(NOTHING, steps), d)
    ensures Run(NOTHING, steps).tasks == map[] ==> Agrees(Run(NOTHING, steps), d)
  {
    if steps != [] {
      var init := steps[..|steps| - 1];
      PrefixIsSerial(steps);
      SerialPerDeviceAgrees(init, d);
      SerialStepStaysOrderly(Run(NOTHING, init), steps[|init|], d);
    }
    if Run(NOTHING, steps).tasks == map[] {
      FinishedAgrees(Run(NOTHING, steps), d);
    }
  }

  lemma PrefixIsSerial(steps: seq<Step>)
    requires AllSerial(steps) && steps != []
    ensures AllSerial(steps[..|steps| - 1]) && Serial(Run(NOTHING, steps[..|steps| - 1]), steps[|steps| - 1])
  {
    var init := steps[..|steps| - 1];
    forall i | 0 <= i < |init| ensures Serial(Run(NOTHING, init[..i]), init[i]) {
      assert init[..i] == steps[..i];
    }
  }

  // ------------------------------------------------------------------
  // Overlapping registers can leave a stale entry
  // ------------------------------------------------------------------

  predicate ShardAgrees(st: State, s: Shard, d: DeviceId) {
    && (d in ShardOf(st.byShard, s) <==> d in st.byDevice && st.byDevice[d].shard == s)
    && (d in ShardOf(st.byShard, s) ==> ShardOf(st.byShard, s)[d] == st.byDevice[d])
  }

  /** Every shard of the index shows the device exactly as the device map does. */
  ghost predicate Agrees(st: State, d: DeviceId) {
    forall s :: ShardAgrees(st, s, d)
  }

  /** All the given steps, one after the other. */
  function ApplyAll(st: State, steps: seq<Step>): State
    decreases |steps|
  {
    if steps == [] then st else ApplyAll(Apply(st, steps[0]), steps[1..])
  }

  lemma {:induction false} RunAppends(a: seq<Step>, b: seq<Step>)
    ensures Run(NOTHING, a + b) == ApplyAll(Run(NOTHING, a), b)
    decreases |b|
  {
    if b == [] {
      assert a + b == a;
    } else {
      assert (a + [b[0]]) + b[1..] == a + b;
      assert (a + [b[0]])[..|a|] == a;
      RunAppends(a + [b[0]], b[1..]);
    }
  }

  /** Two registers of device 7 that both reach `by_device` before either touches `by_shard`. */
  function BothInDeviceMap(s: Shard, u: Shard): seq<Step> {
    [Allocate(1, 7, s), Allocate(2, 7, u), InsertDevice(1), InsertDevice(2)]
  }

  /** The second finishes before the first goes on. */
  const SECOND_FIRST := [CleanShard(2), InsertShard(2), CleanShard(1), InsertShard(1)]

  lemma BothInserted(s: Shard, u: Shard)
    ensures var st := Run(NOTHING, BothInDeviceMap(s, u));
            && st.byDevice == map[7 := Connection(2, u)] && st.byShard == map[]
            && st.tasks == map[1 := Inserted(7, Connection(1, s), None),
                               2 := Inserted(7, Connection(2, u), Some(Connection(1, s)))]
  {
    var (a, b) := (Connection(1, s), Connection(2, u));
    var st1 := Apply(NOTHING, Allocate(1, 7, s));
    var st2 := Apply(st1, Allocate(2, 7, u));
    assert st2.tasks == map[1 := Allocated(7, a), 2 := Allocated(7, b)];
    var st3 := Apply(st2, InsertDevice(1));
    assert st3.byDevice == map[7 := a] && st3.tasks == map[1 := Inserted(7, a, None), 2 := Allocated(7, b)];
    var st4 := Apply(st3, InsertDevice(2));
    FourSteps(NOTHING, BothInDeviceMap(s, u));
    RunAppends([], BothInDeviceMap(s, u));
    assert [] + BothInDeviceMap(s, u) == BothInDeviceMap(s, u);
  }

  lemma FourSteps(st: State, steps: seq<Step>)
    requires |steps| == 4
    ensures ApplyAll(st, steps) == Apply(Apply(Apply(Apply(st, steps[0]), steps[1]), steps[2]), steps[3])
  {
    assert steps[1..][0] == steps[1] && steps[1..][1..] == steps[2..];
    assert steps[2..][0] == steps[2] && steps[2..][1..] == steps[3..];
    assert steps[3..][0] == steps[3] && steps[3..][1..] == [];
    var st1 := Apply(st, steps[0]);
    var st2 := Apply(st1, steps[1]);
    var st3 := Apply(st2, steps[2]);
    assert ApplyAll(st1, steps[1..]) == ApplyAll(st2, steps[2..]);
    assert ApplyAll(st2, steps[2..]) == ApplyAll(st3, steps[3..]);
    assert ApplyAll(st3, steps[3..]) == Apply(st3, steps[3]);
  }

  /**
   Two overlapping registers of one device, both finished, for any two shards: the
   device's connection is the second, but the first one's entry was written last.
   */
  lemma OverlapLeavesTheFirst(s: Shard, u: Shard)
    ensures var st := Run(NOTHING, BothInDeviceMap(s, u) + SECOND_FIRST);
            && st.tasks == map[] && st.byDevice == map[7 := Connection(2, u)]
            && ShardOf(st.byShard, s) == map[7 := Connection(1, s)]
            && (s != u ==> ShardOf(st.byShard, u) == map[7 := Connection(2, u)])
  {
    BothInserted(s, u);
    var st := Run(NOTHING, BothInDeviceMap(s, u));
    RunAppends(BothInDeviceMap(s, u), SECOND_FIRST);
    FourSteps(st, SECOND_FIRST);
    FirstComesLast(st, s, u);
  }

  lemma FirstComesLast(st: State, s: Shard, u: Shard)
    requires st.byShard == map[]
    requires st.tasks == map[1 := Inserted(7, Connection(1, s), None), 2 := Inserted(7, Connection(2, u), Some(Connection(1, s)))]
    ensures var after := Apply(Apply(Apply(Apply(st, CleanShard(2)), InsertShard(2)), CleanShard(1)), InsertShard(1));
            && after.tasks == map[] && after.byDevice == st.byDevice
            && ShardOf(after.byShard, s) == map[7 := Connection(1, s)]
            && (s != u ==> ShardOf(after.byShard, u) == map[7 := Connection(2, u)])
  {
    var (a, b) := (Connection(1, s), Connection(2, u));
    var st5 := Apply(st, CleanShard(2));
    assert st5.byShard == map[] && st5.tasks == map[1 := Inserted(7, a, None), 2 := Cleaned(7, b)];
    var st6 := Apply(st5, InsertShard(2));
    assert st6.byShard == map[u := map[7 := b]] && st6.tasks == map[1 := Inserted(7, a, None)];
    var st7 := Apply(st6, CleanShard(1));
    assert st7.tasks == map[1 := Cleaned(7, a)];
  }

  /** In two different shards, a stale entry stays behind in the first. */
  lemma OverlapLeavesStaleEntry()
    ensures var st := Run(NOTHING, BothInDeviceMap("tkrt", "tkrw") + SECOND_FIRST);
            st.tasks == map[] && !ShardAgrees(st, "tkrt", 7) && ShardAgrees(st, "tkrw", 7)
  {
    OverlapLeavesTheFirst("tkrt", "tkrw");
  }

  /** The connection is where no broadcast looks. */
  ghost predicate Unreachable(st: State, c: Connection) {
    forall s, d :: d in ShardOf(st.byShard, s) ==> ShardOf(st.byShard, s)[d] != c
  }

  /**
   In one shard it is worse: the current connection has no entry at all, so the
   connected device gets no live alert, and the replaced one is kept in its place.
   */
  lemma OverlapInOneShardHidesTheCurrent(s: Shard)
    ensures var st := Run(NOTHING, BothInDeviceMap(s, s) + SECOND_FIRST);
            && st.tasks == map[] && st.byDevice == map[7 := Connection(2, s)]
            && ShardOf(st.byShard, s) == map[7 := Connection(1, s)] && Unreachable(st, Connection(2, s))
  {
    OverlapLeavesTheFirst(s, s);
    var steps := BothInDeviceMap(s, s) + SECOND_FIRST;
    EveryInterleavingSurvives(steps);
    var st := Run(NOTHING, steps);
    forall u, d | d in ShardOf(st.byShard, u) ensures ShardOf(st.byShard, u)[d] != Connection(2, s) {
      assert Genuine(st, d, ShardOf(st.byShard, u)[d]) && ShardOf(st.byShard, u)[d].shard == u;
    }
  }

  /** A register, cut short before its last step by a deregistration of the same connection. */
  function CutShort(s: Shard): seq<Step> {
    [Allocate(1, 7, s), InsertDevice(1), CleanShard(1), RemoveDevice(3, 7, 1)]
  }

  /** Meanwhile the device registers again, completely. */
  function SecondRegister(s: Shard): seq<Step> {
    [Allocate(2, 7, s), InsertDevice(2), CleanShard(2), InsertShard(2)]
  }

  /**
   A register overlapping a deregistration, all finished: the first connection's late
   entry replaces the second's and is then removed, so the current connection is
   indexed nowhere.
   */
  lemma DeregisterOverlapUnindexes(s: Shard)
    ensures var st := Run(NOTHING, CutShort(s) + SecondRegister(s) + [InsertShard(1), RemoveShard(3)]);
            && st.tasks == map[] && st.byDevice == map[7 := Connection(2, s)] && ShardOf(st.byShard, s) == map[]
            && Unreachable(st, Connection(2, s))
  {
    CutShortLeaves(s);
    var st4 := Run(NOTHING, CutShort(s));
    RunAppends(CutShort(s), SecondRegister(s));
    FourSteps(st4, SecondRegister(s));
    SecondRegisters(st4, s);
    var st8 := Run(NOTHING, CutShort(s) + SecondRegister(s));
    LateEntryRemoved(st8, s);
    RunAppends(CutShort(s) + SecondRegister(s), [InsertShard(1), RemoveShard(3)]);
    TwoSteps(st8, InsertShard(1), RemoveShard(3));
  }

  lemma TwoSteps(st: State, a: Step, b: Step)
    ensures ApplyAll(st, [a, b]) == Apply(Apply(st, a), b)
  {
    assert [a, b][1..] == [b] && [b][1..] == [];
    assert ApplyAll(Apply(st, a), [b]) == Apply(Apply(st, a), b);
  }

  lemma SecondRegisters(st4: State, s: Shard)
    requires st4.nextId == 1 && st4.byDevice == map[] && st4.byShard == map[]
    requires st4.tasks == map[1 := Cleaned(7, Connection(1, s)), 3 := Removed(7, Connection(1, s))]
    ensures var st8 := Apply(Apply(Apply(Apply(st4, Allocate(2, 7, s)), InsertDevice(2)), CleanShard(2)), InsertShard(2));
            && st8.tasks == st4.tasks && st8.byDevice == map[7 := Connection(2, s)]
            && st8.byShard == map[s := map[7 := Connection(2, s)]]
  {
    var (a, b) := (Connection(1, s), Connection(2, s));
    var st5 := Apply(st4, Allocate(2, 7, s));
    assert st5.tasks == map[1 := Cleaned(7, a), 3 := Removed(7, a), 2 := Allocated(7, b)];
    var st6 := Apply(st5, InsertDevice(2));
    assert st6.byDevice == map[7 := b] && st6.tasks == map[1 := Cleaned(7, a), 3 := Removed(7, a), 2 := Inserted(7, b, None)];
    var st7 := Apply(st6, CleanShard(2));
    assert st7.tasks == map[1 := Cleaned(7, a), 3 := Removed(7, a), 2 := Cleaned(7, b)];
    var st8 := Apply(st7, InsertShard(2));
    assert st8.tasks == st4.tasks && st8.byShard == map[s := map[7 := b]];
  }

  lemma CutShortLeaves(s: Shard)
    ensures var st := Run(NOTHING, CutShort(s));
            && st.nextId == 1 && st.byDevice == map[] && st.byShard == map[]
            && st.tasks == map[1 := Cleaned(7, Connection(1, s)), 3 := Removed(7, Connection(1, s))]
  {
    var a := Connection(1, s);
    RunAppends([], CutShort(s));
    assert [] + CutShort(s) == CutShort(s);
    FourSteps(NOTHING, CutShort(s));
    var st2 := Apply(Apply(NOTHING, Allocate(1, 7, s)), InsertDevice(1));
    assert st2.byDevice == map[7 := a] && st2.tasks == map[1 := Inserted(7, a, None)];
    var st3 := Apply(st2, CleanShard(1));
    assert st3.tasks == map[1 := Cleaned(7, a)];
  }

  lemma LateEntryRemoved(st: State, s: Shard)
    requires st.tasks == map[1 := Cleaned(7, Connection(1, s)), 3 := Removed(7, Connection(1, s))]
    requires st.byShard == map[s := map[7 := Connection(2, s)]]
    ensures var after := Apply(Apply(st, InsertShard(1)), RemoveShard(3));
            && after.tasks == map[] && after.byDevice == st.byDevice && after.byShard == map[s := map[]]
  {
    var a := Connection(1, s);
    OnlyEntry(s, Connection(2, s), a);
    var st1 := Apply(st, InsertShard(1));
    assert st1.tasks == map[3 := Removed(7, a)];
  }

  /** The index with one entry: what writing over it and removing it leave. */
  lemma OnlyEntry(s: Shard, former: Connection, c: Connection)
    requires c.shard == s
    ensures Index(map[s := map[7 := former]], 7, c) == map[s := map[7 := c]]
    ensures Index(map[], 7, c) == map[s := map[7 := c]]
    ensures Unindex(map[s := map[7 := c]], 7, c) == map[s := map[]]
  {
    var m: map<DeviceId, Connection> := map[7 := former];
    assert m[7 := c] == map[7 := c];
  }
}
