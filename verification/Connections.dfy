/**
 Connections over whole runs: every interleaving of registry operations, replay sends
 and writer steps (crates/fanout-worker/src/ws.rs, crates/fanout-worker/src/replay.rs,
 crates/fanout-worker/src/connection_registry.rs). Each public registry method is one
 step. What is proved: the indexes always agree, a connection id is removed at most
 once, closing a connection always takes effect, nothing follows a Close frame, and a
 queue holds its live alerts in broadcast order.
 */
module Connections {
  import opened Locations
  import opened Registry

  /** What a writer has put on the wire. */
  datatype Frame = Binary(alert: Alert) | Text(message: ServerMessage) | PingFrame | CloseFrame

  datatype Event =
    | Connect(d: DeviceId, s: Shard, loc: Location)
    | Disconnect(d: DeviceId, id: ConnId)
    | Fan(s: Shard, alert: Alert)
    | Move(d: DeviceId, loc: Location)
    | Tell(d: DeviceId, message: ServerMessage, close: bool)
    | ShutDown
    | StartReplay(d: DeviceId, id: ConnId)   // `sender_for`, then the replay task runs
    | ReplaySend(id: ConnId, m: Outbound)
    | EndReplay(id: ConnId)
    | Recv(id: ConnId, sent: bool, closeSent: bool)
    | Ping(id: ConnId, sent: bool)
    | Notify(id: ConnId, closeSent: bool)    // the reader or heartbeat ended
    | Abort(id: ConnId)

  /** The registry, the connections a replay task holds a sender of, and the frames sent. */
  datatype World = World(reg: Registry, replaying: set<ConnId>, frames: map<ConnId, seq<Frame>>)

  const START := World(EMPTY, {}, map[])

  predicate Running(w: World, id: ConnId) {
    id in w.reg.channel && w.reg.channel[id].receiverOpen
  }

  /** The registry still holds the connection, so its channel has a sender. */
  predicate Live(r: Registry, id: ConnId) {
    id in LiveIds(r)
  }

  function SetChannel(w: World, id: ConnId, ch: Channel): World {
    w.(reg := w.reg.(channel := w.reg.channel[id := ch]))
  }

  function FramesOf(w: World, id: ConnId): seq<Frame> {
    if id in w.frames then w.frames[id] else []
  }

  function Emit(w: World, id: ConnId, fs: seq<Frame>): World {
    w.(frames := w.frames[id := FramesOf(w, id) + fs])
  }

  /** The writer task ends and drops its receiver. */
  function Stop(w: World, id: ConnId): World
    requires Running(w, id)
  {
    SetChannel(w, id, w.reg.channel[id].(receiverOpen := false))
  }

  function When(b: bool, f: Frame): seq<Frame> { if b then [f] else [] }

  /** The frames a received message leads to, and whether the loop goes on. */
  function Write(m: Outbound, sent: bool, closeSent: bool): (seq<Frame>, bool) {
    match m
    case AlertMsg(alert) => (When(sent, Binary(alert)), sent)
    case Control(text, close) =>
      if close || !sent then (When(sent, Text(text)) + When(closeSent, CloseFrame), false)
      else ([Text(text)], true)
    case Close => (When(closeSent, CloseFrame), false)
  }

  /** The `recv` arm of the writer loop; with an empty queue it waits while a sender exists. */
  function RecvStep(w: World, id: ConnId, sent: bool, closeSent: bool): World
    requires Running(w, id)
  {
    var ch := w.reg.channel[id];
    if ch.queue == [] then
      if Live(w.reg, id) || id in w.replaying then w else Stop(w, id)
    else
      var (fs, goesOn) := Write(ch.queue[0], sent, closeSent);
      Emit(SetChannel(w, id, Channel(ch.queue[1..], goesOn)), id, fs)
  }

  /** One step; an event that is not possible changes nothing. */
  function Step(dist: Distance, w: World, e: Event): World {
    match e
    case Connect(d, s, loc) => w.(reg := Register(w.reg, d, s, loc))
    case Disconnect(d, id) => w.(reg := Deregister(w.reg, d, id))
    case Fan(s, alert) => w.(reg := Broadcast(w.reg, dist, s, alert))
    case Move(d, loc) => w.(reg := UpdateLocation(w.reg, d, loc))
    case Tell(d, m, close) => w.(reg := SendControl(w.reg, d, m, close))
    case ShutDown => w.(reg := CloseAll(w.reg))
    case StartReplay(d, id) => if Current(w.reg, d, id) then w.(replaying := w.replaying + {id}) else w
    case ReplaySend(id, m) =>
      if id in w.replaying && HasRoom(w.reg, id) && !m.Closing()
      then SetChannel(w, id, w.reg.channel[id].TrySend(m)) else w
    case EndReplay(id) => w.(replaying := w.replaying - {id})
    case Recv(id, sent, closeSent) => if Running(w, id) then RecvStep(w, id, sent, closeSent) else w
    case Ping(id, sent) =>
      if !Running(w, id) then w else if sent then Emit(w, id, [PingFrame]) else Stop(w, id)
    case Notify(id, closeSent) => if Running(w, id) then Stop(Emit(w, id, When(closeSent, CloseFrame)), id) else w
    case Abort(id) => if Running(w, id) then Stop(w, id) else w
  }

  function Run(dist: Distance, w: World, es: seq<Event>): World {
    if es == [] then w else Step(dist, Run(dist, w, es[..|es| - 1]), es[|es| - 1])
  }

  // ------------------------------------------------------------------
  // The indexes agree after every run
  // ------------------------------------------------------------------

  lemma NewQueueKeepsInv(r: Registry, id: ConnId, ch: Channel)
    requires Inv(r) && id in r.channel && |ch.queue| <= CAPACITY
    ensures Inv(r.(channel := r.channel[id := ch]))
  {
  }

  lemma {:induction false} StepKeepsInv(dist: Distance, w: World, e: Event)
    requires Inv(w.reg)
    ensures Inv(Step(dist, w, e).reg)
  {
    match e {
      case Connect(d, s, loc) => RegisterKeepsInv(w.reg, d, s, loc);
      case Disconnect(d, id) => DeregisterKeepsInv(w.reg, d, id);
      case Fan(s, alert) => BroadcastKeepsInv(w.reg, dist, s, alert);
      case Move(d, loc) => UpdateLocationKeepsInv(w.reg, d, loc);
      case Tell(d, m, close) => SendControlKeepsInv(w.reg, d, m, close);
      case ShutDown => CloseAllKeepsInv(w.reg);
      case StartReplay(_, _) =>
      case EndReplay(_) =>
      case _ => WriterStepKeepsInv(dist, w, e);
    }
  }

  lemma {:induction false} WriterStepKeepsInv(dist: Distance, w: World, e: Event)
    requires Inv(w.reg) && (e.ReplaySend? || e.Recv? || e.Ping? || e.Notify? || e.Abort?)
    ensures Inv(Step(dist, w, e).reg)
  {
    var after := Step(dist, w, e);
    if after.reg != w.reg {
      assert after.reg == w.reg.(channel := w.reg.channel[e.id := after.reg.channel[e.id]]);
      NewQueueKeepsInv(w.reg, e.id, after.reg.channel[e.id]);
    }
  }

  /**
   After any run the shard index holds exactly the current connections, ids are
   unique, and no queue exceeds its capacity.
   */
  lemma {:induction false} RunKeepsInv(dist: Distance, w: World, es: seq<Event>)
    requires Inv(w.reg)
    ensures Inv(Run(dist, w, es).reg)
  {
    if es != [] {
      RunKeepsInv(dist, w, es[..|es| - 1]);
      StepKeepsInv(dist, Run(dist, w, es[..|es| - 1]), es[|es| - 1]);
    }
  }

  // ------------------------------------------------------------------
  // What one step does to a channel
  // ------------------------------------------------------------------

  /** The message an event may queue. */
  function MessageOf(e: Event): Outbound {
    match e
    case Fan(_, alert) => AlertMsg(alert)
    case Tell(_, m, close) => Control(m, close)
    case ReplaySend(_, m) => m
    case _ => Close
  }

  /** The queue stays, gets this event's message, or is received from; a stopped writer stays stopped. */
  predicate Moved(before: Channel, now: Channel, e: Event, id: ConnId) {
    && (now.receiverOpen ==> before.receiverOpen)
    && (|| now.queue == before.queue
        || now.queue == before.queue + [MessageOf(e)]
        || (e.Recv? && e.id == id && before.queue != [] && now.queue == before.queue[1..]))
  }

  predicate OfRegistry(e: Event) {
    e.Connect? || e.Disconnect? || e.Fan? || e.Move? || e.Tell? || e.ShutDown?
  }

  lemma {:induction false} RegistryStepMoves(dist: Distance, w: World, e: Event, id: ConnId)
    requires CellsKnown(w.reg) && id in w.reg.channel && OfRegistry(e)
    ensures id in Step(dist, w, e).reg.channel
    ensures Moved(w.reg.channel[id], Step(dist, w, e).reg.channel[id], e, id)
  {
  }

  lemma {:induction false} WriterStepMoves(dist: Distance, w: World, e: Event, id: ConnId)
    requires id in w.reg.channel && !OfRegistry(e)
    ensures id in Step(dist, w, e).reg.channel
    ensures Moved(w.reg.channel[id], Step(dist, w, e).reg.channel[id], e, id)
  {
  }

  lemma {:induction false} StepMovesChannel(dist: Distance, w: World, e: Event, id: ConnId)
    requires CellsKnown(w.reg) && id in w.reg.channel
    ensures id in Step(dist, w, e).reg.channel
    ensures Moved(w.reg.channel[id], Step(dist, w, e).reg.channel[id], e, id)
  {
    if OfRegistry(e) {
      RegistryStepMoves(dist, w, e, id);
    } else {
      WriterStepMoves(dist, w, e, id);
    }
  }

  /** A channel appears empty, when its connection is registered. */
  lemma {:induction false} NewChannelIsEmpty(dist: Distance, w: World, e: Event, id: ConnId)
    requires Inv(w.reg) && id !in w.reg.channel && id in Step(dist, w, e).reg.channel
    ensures Step(dist, w, e).reg.channel[id].queue == []
  {
  }

  // ------------------------------------------------------------------
  // Generations
  // ------------------------------------------------------------------

  /** An id that was handed out and is no longer current: it can never come back. */
  predicate Retired(r: Registry, id: ConnId) {
    1 <= id <= r.nextId && !Live(r, id)
  }

  /** Removing a connection removes its own id and no other. */
  lemma DeregisterRemovesOnlyItsId(r: Registry, d: DeviceId, id: ConnId)
    requires Inv(r)
    ensures LiveIds(Deregister(r, d, id)) == if Current(r, d, id) then LiveIds(r) - {id} else LiveIds(r)
    ensures forall other :: other != id ==> (Live(Deregister(r, d, id), other) <==> Live(r, other))
  {
    var after := Deregister(r, d, id);
    if Current(r, d, id) {
      forall other ensures other in LiveIds(after) <==> other in LiveIds(r) && other != id {
        if other in LiveIds(r) && other != id {
          var e :| e in r.byDevice && r.byDevice[e].id == other;
          assert e != d && e in after.byDevice;
        }
        if other in LiveIds(after) {
          var e :| e in after.byDevice && after.byDevice[e].id == other;
          assert e in r.byDevice;
        }
      }
    }
  }

  /** Registering makes one new id live and retires at most the one it replaces. */
  lemma RegisterChangesLiveIds(r: Registry, d: DeviceId, s: Shard, loc: Location)
    requires Inv(r)
    ensures LiveIds(Register(r, d, s, loc)) ==
              (if d in r.byDevice then LiveIds(r) - {r.byDevice[d].id} else LiveIds(r)) + {r.nextId + 1}
  {
    var c := Connection(r.nextId + 1, s);
    assert Register(r, d, s, loc).byDevice == r.byDevice[d := c];
    LiveIdsAfterInsert(r, d, c);
  }

  lemma LiveIdsAfterInsert(r: Registry, d: DeviceId, c: Connection)
    requires IdsUnique(r) && c.id > r.nextId
    ensures LiveIds(r.(byDevice := r.byDevice[d := c])) ==
              (if d in r.byDevice then LiveIds(r) - {r.byDevice[d].id} else LiveIds(r)) + {c.id}
  {
    var after := r.(byDevice := r.byDevice[d := c]);
    forall id ensures id in LiveIds(after) <==> id == c.id || (id in LiveIds(r) && !Current(r, d, id)) {
      if id in LiveIds(r) && !Current(r, d, id) {
        var e :| e in r.byDevice && r.byDevice[e].id == id;
        assert e != d && after.byDevice[e].id == id;
      }
      if id in LiveIds(after) {
        var e :| e in after.byDevice && after.byDevice[e].id == id;
        assert e != d ==> e in r.byDevice && r.byDevice[e].id == id;
      }
      assert after.byDevice[d].id == c.id;
    }
  }

  lemma {:induction false} StepKeepsRetired(dist: Distance, w: World, e: Event, id: ConnId)
    requires Inv(w.reg) && Retired(w.reg, id)
    ensures Retired(Step(dist, w, e).reg, id)
  {
    if e.Connect? {
      RegisterChangesLiveIds(w.reg, e.d, e.s, e.loc);
    } else {
      NobodyBecomesLive(dist, w, e);
    }
  }

  /** Apart from registering, no step makes an id live or hands one out. */
  lemma {:induction false} NobodyBecomesLive(dist: Distance, w: World, e: Event)
    requires !e.Connect?
    ensures var after := Step(dist, w, e).reg;
            && after.nextId == w.reg.nextId && LiveIds(after) <= LiveIds(w.reg)
            && forall d :: d in after.byDevice ==> d in w.reg.byDevice && after.byDevice[d] == w.reg.byDevice[d]
  {
    var after := Step(dist, w, e).reg;
    assert forall d :: d in after.byDevice ==> d in w.reg.byDevice && after.byDevice[d] == w.reg.byDevice[d];
  }

  lemma {:induction false} RunKeepsRetired(dist: Distance, w: World, es: seq<Event>, id: ConnId)
    requires Inv(w.reg) && Retired(w.reg, id)
    ensures Retired(Run(dist, w, es).reg, id)
  {
    if es != [] {
      RunKeepsRetired(dist, w, es[..|es| - 1], id);
      RunKeepsInv(dist, w, es[..|es| - 1]);
      StepKeepsRetired(dist, Run(dist, w, es[..|es| - 1]), es[|es| - 1], id);
    }
  }

  lemma {:induction false} RunConcat(dist: Distance, w: World, a: seq<Event>, b: seq<Event>)
    ensures Run(dist, w, a + b) == Run(dist, Run(dist, w, a), b)
  {
    if b == [] {
      assert a + b == a;
    } else {
      assert (a + b)[..|a + b| - 1] == a + b[..|b| - 1];
      RunConcat(dist, w, a, b[..|b| - 1]);
    }
  }

  /** The event calls `deregister` with this id: a cleanup, or a closing message that found the queue full. */
  predicate CallsDeregister(r: Registry, e: Event, id: ConnId) {
    || (e.Disconnect? && e.id == id)
    || (e.Tell? && e.close && Current(r, e.d, id) && !HasRoom(r, id))
  }

  /** At step `i` of the run `deregister` is called with this id and returns true. */
  ghost predicate Removes(dist: Distance, es: seq<Event>, i: nat, id: ConnId) {
    && i < |es|
    && var r := Run(dist, START, es[..i]).reg;
       CallsDeregister(r, es[i], id) && Current(r, es[i].d, id)
  }

  /** Over any run `deregister` returns true at most once per connection id. */
  lemma {:induction false} RemovedAtMostOnce(dist: Distance, es: seq<Event>, i: nat, j: nat, id: ConnId)
    requires i < j && Removes(dist, es, i, id)
    ensures !Removes(dist, es, j, id)
  {
    if j < |es| {
      var before := Run(dist, START, es[..i]);
      var after := Step(dist, before, es[i]);
      EmptyKeepsInv();
      RunKeepsInv(dist, START, es[..i]);
      StepKeepsInv(dist, before, es[i]);
      DeregisterRemovesOnlyItsId(before.reg, es[i].d, id);
      assert es[..i + 1][..i] == es[..i];
      assert Run(dist, START, es[..i + 1]) == after;
      assert es[..j] == es[..i + 1] + es[i + 1..j];
      RunConcat(dist, START, es[..i + 1], es[i + 1..j]);
      RunKeepsRetired(dist, after, es[i + 1..j], id);
    }
  }

  /** Registrations, replacements and true removals since the last `close_all`. */
  datatype Balance = Balance(registered: nat, replaced: nat, removed: nat)

  function CountStep(b: Balance, r: Registry, e: Event): Balance {
    match e
    case Connect(d, _, _) =>
      b.(registered := b.registered + 1, replaced := b.replaced + if d in r.byDevice then 1 else 0)
    case Disconnect(d, id) => b.(removed := b.removed + if Current(r, d, id) then 1 else 0)
    case Tell(d, _, close) =>
      b.(removed := b.removed + if d in r.byDevice && !HasRoom(r, r.byDevice[d].id) && close then 1 else 0)
    case ShutDown => Balance(0, 0, 0)
    case _ => b
  }

  function Count(dist: Distance, es: seq<Event>): Balance {
    if es == [] then Balance(0, 0, 0)
    else CountStep(Count(dist, es[..|es| - 1]), Run(dist, START, es[..|es| - 1]).reg, es[|es| - 1])
  }

  predicate Balances(b: Balance, r: Registry) {
    |r.byDevice| == b.registered - b.replaced - b.removed
  }

  lemma RemovalShrinks(m: map<DeviceId, Connection>, d: DeviceId)
    requires d in m
    ensures |m - {d}| == |m| - 1
  {
    assert (m - {d}).Keys == m.Keys - {d};
    assert |(m - {d}).Keys| == |m - {d}| && |m.Keys| == |m|;
  }

  lemma InsertionGrows(m: map<DeviceId, Connection>, d: DeviceId, c: Connection)
    ensures |m[d := c]| == |m| + if d in m then 0 else 1
  {
    assert m[d := c].Keys == m.Keys + {d};
    assert |m[d := c].Keys| == |m[d := c]| && |m.Keys| == |m|;
  }

  lemma {:induction false} StepBalances(dist: Distance, w: World, e: Event, b: Balance)
    requires Balances(b, w.reg)
    ensures Balances(CountStep(b, w.reg, e), Step(dist, w, e).reg)
  {
    var r, after := w.reg, Step(dist, w, e).reg;
    match e {
      case Connect(d, s, _) => InsertionGrows(r.byDevice, d, Connection(r.nextId + 1, s));
      case Disconnect(d, id) =>
        if Current(r, d, id) {
          RemovalShrinks(r.byDevice, d);
        }
      case Tell(d, _, _) =>
        if d in r.byDevice {
          RemovalShrinks(r.byDevice, d);
        }
      case ShutDown =>
      case _ => OtherStepsKeepDevices(dist, w, e);
    }
  }

  lemma {:induction false} OtherStepsKeepDevices(dist: Distance, w: World, e: Event)
    requires !e.Connect? && !e.Disconnect? && !e.Tell? && !e.ShutDown?
    ensures Step(dist, w, e).reg.byDevice == w.reg.byDevice
  {
  }

  /** Live entries are exactly what was registered minus what was replaced or removed. */
  lemma {:induction false} EntriesBalance(dist: Distance, es: seq<Event>)
    ensures Balances(Count(dist, es), Run(dist, START, es).reg)
  {
    if es != [] {
      EntriesBalance(dist, es[..|es| - 1]);
      StepBalances(dist, Run(dist, START, es[..|es| - 1]), es[|es| - 1], Count(dist, es[..|es| - 1]));
    }
  }

  // ------------------------------------------------------------------
  // Closing takes effect
  // ------------------------------------------------------------------

  /** Where the first closing message is, or the length of the queue. */
  function FirstClosing(queue: seq<Outbound>): (i: nat)
    ensures i <= |queue|
    ensures i < |queue| ==> queue[i].Closing()
    ensures forall k :: 0 <= k < i ==> !queue[k].Closing()
  {
    if queue == [] || queue[0].Closing() then 0 else 1 + FirstClosing(queue[1..])
  }

  lemma {:induction false} FirstClosingOfLonger(queue: seq<Outbound>, m: Outbound)
    ensures FirstClosing(queue) < |queue| ==> FirstClosing(queue + [m]) == FirstClosing(queue)
    ensures FirstClosing(queue) == |queue| ==>
              FirstClosing(queue + [m]) == if m.Closing() then |queue| else |queue| + 1
  {
    if queue != [] {
      assert (queue + [m])[1..] == queue[1..] + [m];
      FirstClosingOfLonger(queue[1..], m);
    }
  }

  /** How many more messages the writer can take before it must stop. */
  function Remaining(w: World, id: ConnId): nat
    requires id in w.reg.channel
  {
    FirstClosing(w.reg.channel[id].queue)
  }

  /**
   The connection is ending: a closing message is queued, or nobody holds a sender of
   its channel any more.
   */
  predicate Ending(w: World, id: ConnId) {
    && id in w.reg.channel
    && (|| Remaining(w, id) < |w.reg.channel[id].queue|
        || (!Live(w.reg, id) && id !in w.replaying))
  }

  /** Either the writer is gone, or the connection is ending with at most `n` messages to go. */
  predicate EndsWithin(w: World, id: ConnId, n: int) {
    id in w.reg.channel && (Running(w, id) ==> Ending(w, id) && Remaining(w, id) <= n)
  }

  /** A replaced connection is ending, unless its replay task still holds a sender. */
  lemma ReplacedEnds(w: World, d: DeviceId, s: Shard, loc: Location)
    requires Inv(w.reg) && d in w.reg.byDevice
    ensures var id := w.reg.byDevice[d].id;
            var after := w.(reg := Register(w.reg, d, s, loc));
            id !in w.replaying ==> EndsWithin(after, id, CAPACITY)
  {
    var id := w.reg.byDevice[d].id;
    var after := w.(reg := Register(w.reg, d, s, loc));
    RegisterChangesLiveIds(w.reg, d, s, loc);
    RegisterKeepsInv(w.reg, d, s, loc);
    assert id in after.reg.channel;
  }

  /** So is one that was sent a closing control message, even if its queue was full. */
  lemma ToldToCloseEnds(w: World, d: DeviceId, m: ServerMessage)
    requires Inv(w.reg) && d in w.reg.byDevice
    ensures var id := w.reg.byDevice[d].id;
            var after := w.(reg := SendControl(w.reg, d, m, true));
            id !in w.replaying ==> EndsWithin(after, id, CAPACITY)
  {
    var id := w.reg.byDevice[d].id;
    var after := w.(reg := SendControl(w.reg, d, m, true));
    SendControlKeepsInv(w.reg, d, m, true);
    if HasRoom(w.reg, id) {
      FirstClosingOfLonger(w.reg.channel[id].queue, Control(m, true));
    } else {
      DeregisterRemovesOnlyItsId(w.reg, d, id);
    }
  }

  /** So is every connection caught by `close_all`. */
  lemma ShutDownEnds(w: World, id: ConnId)
    requires Inv(w.reg) && id in w.reg.channel && id !in w.replaying
    ensures EndsWithin(w.(reg := CloseAll(w.reg)), id, CAPACITY)
  {
    CloseAllKeepsInv(w.reg);
  }

  /** Once the replay task of a connection that left the registry ends, the connection is ending too. */
  lemma {:induction false} ReplayEndLetsGo(dist: Distance, w: World, id: ConnId)
    requires Inv(w.reg) && id in w.reg.channel && !Live(w.reg, id)
    ensures EndsWithin(Step(dist, w, EndReplay(id)), id, CAPACITY)
  {
  }

  /** A replay gets a sender of the device's current connection only, and only a replay's start and end change who has one. */
  lemma {:induction false} WhoHoldsASender(dist: Distance, w: World, e: Event, id: ConnId)
    ensures id in Step(dist, w, e).replaying <==>
              if e.StartReplay? && e.id == id && Current(w.reg, e.d, id) then true
              else id in w.replaying && !(e.EndReplay? && e.id == id)
  {
  }

  /** No step of anybody else delays the end. */
  lemma {:induction false} StepKeepsEnding(dist: Distance, w: World, e: Event, id: ConnId, n: int)
    requires Inv(w.reg) && EndsWithin(w, id, n)
    requires !(e.Recv? && e.id == id)
    ensures EndsWithin(Step(dist, w, e), id, n)
  {
    var after := Step(dist, w, e);
    StepKeepsInv(dist, w, e);
    StepKeepsCells(dist, w, e, id);
    if Running(after, id) {
      QueueOnlyGrows(dist, w, e, id);
      if !Live(w.reg, id) && id !in w.replaying {
        StepKeepsRetired(dist, w, e, id);
        RetiredQueueStays(dist, w, e, id);
      }
      var before, now := w.reg.channel[id].queue, after.reg.channel[id].queue;
      if |now| == |before| + 1 {
        FirstClosingOfLonger(before, now[|before|]);
        assert now == before + [now[|before|]];
      }
    }
  }

  /** A handed-out id stays known, and a stopped writer stays stopped. */
  lemma {:induction false} StepKeepsCells(dist: Distance, w: World, e: Event, id: ConnId)
    requires Inv(w.reg) && id in w.reg.channel
    ensures id in Step(dist, w, e).reg.channel
    ensures Running(Step(dist, w, e), id) ==> Running(w, id)
  {
    StepMovesChannel(dist, w, e, id);
  }

  /** Every step but the writer's own `recv` leaves the queue alone or appends one message. */
  lemma {:induction false} QueueOnlyGrows(dist: Distance, w: World, e: Event, id: ConnId)
    requires Inv(w.reg) && id in w.reg.channel
    requires !(e.Recv? && e.id == id)
    ensures id in Step(dist, w, e).reg.channel
    ensures var before, now := w.reg.channel[id].queue, Step(dist, w, e).reg.channel[id].queue;
            now == before || exists m :: now == before + [m]
  {
    StepMovesChannel(dist, w, e, id);
  }

  /** Once nobody holds a sender, nothing is queued any more. */
  lemma {:induction false} RetiredQueueStays(dist: Distance, w: World, e: Event, id: ConnId)
    requires Inv(w.reg) && Retired(w.reg, id) && id in w.reg.channel && id !in w.replaying
    requires !(e.Recv? && e.id == id)
    ensures id in Step(dist, w, e).reg.channel
    ensures Step(dist, w, e).reg.channel[id].queue == w.reg.channel[id].queue
    ensures id !in Step(dist, w, e).replaying
  {
    if OfRegistry(e) {
      RegistryLeavesRetired(dist, w, e, id);
    }
  }

  lemma {:induction false} RegistryLeavesRetired(dist: Distance, w: World, e: Event, id: ConnId)
    requires Inv(w.reg) && Retired(w.reg, id) && id in w.reg.channel && OfRegistry(e)
    ensures id in Step(dist, w, e).reg.channel
    ensures Step(dist, w, e).reg.channel[id].queue == w.reg.channel[id].queue
  {
    if e.Fan? {
      forall d | d in ShardOf(w.reg.byShard, e.s) ensures ShardOf(w.reg.byShard, e.s)[d].id != id {
        assert d in ShardOf(w.reg.byShard, e.s) <==> d in w.reg.byDevice && w.reg.byDevice[d].shard == e.s;
      }
    }
  }

  /** Each `recv` stops the writer or brings the end one message closer. */
  lemma {:induction false} RecvApproachesEnd(dist: Distance, w: World, e: Event, n: nat)
    requires Inv(w.reg) && e.Recv? && EndsWithin(w, e.id, n)
    ensures EndsWithin(Step(dist, w, e), e.id, n - 1)
  {
    var after := Step(dist, w, e);
    if Running(w, e.id) {
      var queue := w.reg.channel[e.id].queue;
      if queue != [] && Running(after, e.id) {
        assert after.reg.channel[e.id].queue == queue[1..];
        assert !queue[0].Closing();
      }
    }
  }

  function Recvs(es: seq<Event>, id: ConnId): nat {
    if es == [] then 0
    else Recvs(es[..|es| - 1], id) + if es[|es| - 1].Recv? && es[|es| - 1].id == id then 1 else 0
  }

  /**
   Closing always takes effect: an ending connection's writer has stopped once it
   polled its queue more often than messages were left, at most 64 of them.
   */
  lemma {:induction false} ClosingTakesEffect(dist: Distance, w: World, es: seq<Event>, id: ConnId, n: nat)
    requires Inv(w.reg) && EndsWithin(w, id, n)
    ensures EndsWithin(Run(dist, w, es), id, n - Recvs(es, id))
    ensures Recvs(es, id) > n ==> !Running(Run(dist, w, es), id)
  {
    if es != [] {
      var init, e := es[..|es| - 1], es[|es| - 1];
      ClosingTakesEffect(dist, w, init, id, n);
      RunKeepsInv(dist, w, init);
      var before := Run(dist, w, init);
      var left := n - Recvs(init, id);
      if e.Recv? && e.id == id {
        if left >= 0 {
          RecvApproachesEnd(dist, before, e, left);
        } else {
          StepKeepsCells(dist, before, e, id);
        }
      } else {
        StepKeepsEnding(dist, before, e, id, left);
      }
    }
  }

  // ------------------------------------------------------------------
  // Nothing after a Close frame
  // ------------------------------------------------------------------

  /** A Close frame, if there is one, is the last frame (section 5.5.1 of RFC 6455). */
  predicate CloseIsLast(fs: seq<Frame>) {
    forall i :: 0 <= i < |fs| - 1 ==> fs[i] != CloseFrame
  }

  predicate NoClose(fs: seq<Frame>) {
    CloseFrame !in fs
  }

  /** While a writer runs it has sent no Close frame. */
  ghost predicate FramesInv(w: World) {
    && (forall id :: id in w.frames ==> CloseIsLast(w.frames[id]))
    && (forall id :: id in w.frames && Running(w, id) ==> NoClose(w.frames[id]))
    && (forall id :: id in w.frames ==> id in w.reg.channel)
  }

  lemma WriteEndsWithClose(m: Outbound, sent: bool, closeSent: bool)
    ensures var (fs, goesOn) := Write(m, sent, closeSent);
            CloseIsLast(fs) && (goesOn ==> NoClose(fs))
  {
  }

  lemma EmitKeepsFrames(fs: seq<Frame>, more: seq<Frame>)
    requires NoClose(fs) && CloseIsLast(more)
    ensures CloseIsLast(fs + more) && (NoClose(more) ==> NoClose(fs + more))
  {
  }

  /** What a step puts on the wire: nothing after a Close frame, and nothing more from a writer that stopped. */
  lemma {:induction false} StepAddsFrames(dist: Distance, w: World, e: Event, id: ConnId) returns (more: seq<Frame>)
    requires Inv(w.reg)
    ensures FramesOf(Step(dist, w, e), id) == FramesOf(w, id) + more && CloseIsLast(more)
    ensures more != [] ==> Running(w, id)
    ensures Running(Step(dist, w, e), id) ==> NoClose(more)
  {
    more := FramesOf(Step(dist, w, e), id)[|FramesOf(w, id)|..];
    if e.Recv? && Running(w, e.id) && w.reg.channel[e.id].queue != [] {
      WriteEndsWithClose(w.reg.channel[e.id].queue[0], e.sent, e.closeSent);
    }
  }

  lemma {:induction false} StepKeepsFrames(dist: Distance, w: World, e: Event)
    requires Inv(w.reg) && FramesInv(w)
    ensures FramesInv(Step(dist, w, e))
  {
    var after := Step(dist, w, e);
    forall id | id in after.frames
      ensures CloseIsLast(after.frames[id]) && id in after.reg.channel
      ensures Running(after, id) ==> NoClose(after.frames[id])
    {
      if id in w.reg.channel {
        StepKeepsCells(dist, w, e, id);
      }
      var more := StepAddsFrames(dist, w, e, id);
      if more != [] {
        EmitKeepsFrames(FramesOf(w, id), more);
      }
    }
  }

  /** In every run, no connection's writer sends anything after a Close frame. */
  lemma {:induction false} NothingFollowsClose(dist: Distance, es: seq<Event>, id: ConnId)
    ensures FramesInv(Run(dist, START, es))
    ensures CloseIsLast(FramesOf(Run(dist, START, es), id))
  {
    if es != [] {
      NothingFollowsClose(dist, es[..|es| - 1], id);
      EmptyKeepsInv();
      RunKeepsInv(dist, START, es[..|es| - 1]);
      StepKeepsFrames(dist, Run(dist, START, es[..|es| - 1]), es[|es| - 1]);
    }
  }

  // ------------------------------------------------------------------
  // Queues keep the order of the run
  // ------------------------------------------------------------------

  function QueueOf(w: World, id: ConnId): seq<Outbound> {
    if id in w.reg.channel then w.reg.channel[id].queue else []
  }

  /** The steps of the run whose message the connection's queue accepted. */
  function Origins(dist: Distance, es: seq<Event>, id: ConnId): seq<nat> {
    if es == [] then []
    else
      var init := es[..|es| - 1];
      var before, now := QueueOf(Run(dist, START, init), id), QueueOf(Run(dist, START, es), id);
      Origins(dist, init, id) + if |now| > |before| then [|init|] else []
  }

  predicate StrictlyAscending(s: seq<nat>) {
    forall i, j :: 0 <= i < j < |s| ==> s[i] < s[j]
  }

  /** The queue is the tail of the accepted messages, and these come from ever later steps. */
  ghost predicate InOrder(queue: seq<Outbound>, origins: seq<nat>, es: seq<Event>) {
    && StrictlyAscending(origins)
    && (forall i :: 0 <= i < |origins| ==> origins[i] < |es|)
    && |queue| <= |origins|
    && forall k :: 0 <= k < |queue| ==> queue[k] == MessageOf(es[origins[|origins| - |queue| + k]])
  }

  /** One step takes the first message, appends its own, or leaves the queue. */
  lemma {:induction false} StepMovesQueue(dist: Distance, w: World, e: Event, id: ConnId)
    requires Inv(w.reg)
    ensures var before, now := QueueOf(w, id), QueueOf(Step(dist, w, e), id);
            || now == before
            || now == before + [MessageOf(e)]
            || (before != [] && now == before[1..])
  {
    if id in w.reg.channel {
      StepMovesChannel(dist, w, e, id);
    } else if id in Step(dist, w, e).reg.channel {
      NewChannelIsEmpty(dist, w, e, id);
    }
  }

  lemma InOrderStays(queue: seq<Outbound>, origins: seq<nat>, es: seq<Event>, e: Event)
    requires InOrder(queue, origins, es)
    ensures InOrder(queue, origins, es + [e])
    ensures queue != [] ==> InOrder(queue[1..], origins, es + [e])
    ensures InOrder(queue + [MessageOf(e)], origins + [|es|], es + [e])
  {
  }

  lemma OrderAfterStep(before: seq<Outbound>, now: seq<Outbound>, origins: seq<nat>, es: seq<Event>, e: Event)
    requires InOrder(before, origins, es)
    requires now == before || now == before + [MessageOf(e)] || (before != [] && now == before[1..])
    ensures InOrder(now, origins + (if |now| > |before| then [|es|] else []), es + [e])
  {
    InOrderStays(before, origins, es, e);
    assert origins + [] == origins;
  }

  /**
   After any run, a queue's messages come from strictly later and later steps: in
   particular its live alerts are in the order in which they were broadcast.
   */
  lemma {:induction false} QueuesKeepBroadcastOrder(dist: Distance, es: seq<Event>, id: ConnId)
    ensures InOrder(QueueOf(Run(dist, START, es), id), Origins(dist, es, id), es)
  {
    if es != [] {
      var init, e := es[..|es| - 1], es[|es| - 1];
      QueuesKeepBroadcastOrder(dist, init, id);
      EmptyKeepsInv();
      RunKeepsInv(dist, START, init);
      var w := Run(dist, START, init);
      StepMovesQueue(dist, w, e, id);
      OrderAfterStep(QueueOf(w, id), QueueOf(Step(dist, w, e), id), Origins(dist, init, id), init, e);
      assert es == init + [e];
    }
  }

  // ------------------------------------------------------------------
  // What goes on the wire
  // ------------------------------------------------------------------

  /**
   What the writer does with a message it takes: an alert is one binary frame, a control
   message one text frame, followed by a Close frame if it closes or could not be sent,
   and a closing message a Close frame. The writer goes on after an alert or a control
   message that does not close, if it was sent, and stops after everything else.
   */
  lemma {:induction false} RecvInNumbers(dist: Distance, w: World, id: ConnId, sent: bool, closeSent: bool)
    requires Running(w, id) && w.reg.channel[id].queue != []
    ensures var after := Step(dist, w, Recv(id, sent, closeSent));
            var m := w.reg.channel[id].queue[0];
            && id in after.reg.channel && after.reg.channel[id].queue == w.reg.channel[id].queue[1..]
            && (m.AlertMsg? ==>
                  && FramesOf(after, id) == FramesOf(w, id) + (if sent then [Binary(m.alert)] else [])
                  && (Running(after, id) <==> sent))
            && (m.Control? && !m.close && sent ==>
                  FramesOf(after, id) == FramesOf(w, id) + [Text(m.message)] && Running(after, id))
            && (m.Control? && (m.close || !sent) ==>
                  && FramesOf(after, id) ==
                     FramesOf(w, id) + (if sent then [Text(m.message)] else []) + (if closeSent then [CloseFrame] else [])
                  && !Running(after, id))
            && (m.Close? ==>
                  FramesOf(after, id) == FramesOf(w, id) + (if closeSent then [CloseFrame] else []) && !Running(after, id))
  {
  }

  /** With nothing to take the writer waits while somebody holds a sender, and stops when nobody does. */
  lemma {:induction false} RecvOfNothing(dist: Distance, w: World, id: ConnId, sent: bool, closeSent: bool)
    requires Running(w, id) && w.reg.channel[id].queue == []
    ensures var after := Step(dist, w, Recv(id, sent, closeSent));
            && after.frames == w.frames
            && (Running(after, id) <==> id in w.replaying || exists d :: Current(w.reg, d, id))
  {
    if id in LiveIds(w.reg) {
      var d :| d in w.reg.byDevice && w.reg.byDevice[d].id == id;
      assert Current(w.reg, d, id);
    }
  }

  /** A ping is sent or stops the writer; at the end of the reader the writer sends a Close frame and stops. */
  lemma {:induction false} PingAndNotifyInNumbers(dist: Distance, w: World, id: ConnId, sent: bool)
    requires Running(w, id)
    ensures var after := Step(dist, w, Ping(id, sent));
            && FramesOf(after, id) == FramesOf(w, id) + (if sent then [PingFrame] else [])
            && (Running(after, id) <==> sent) && after.reg.channel[id].queue == w.reg.channel[id].queue
    ensures var after := Step(dist, w, Notify(id, sent));
            && FramesOf(after, id) == FramesOf(w, id) + (if sent then [CloseFrame] else [])
            && !Running(after, id) && after.reg.channel[id].queue == w.reg.channel[id].queue
  {
  }

  /** The frames that carry a message to the device. */
  function DataFrames(fs: seq<Frame>): seq<Frame> {
    if fs == [] then []
    else DataFrames(fs[..|fs| - 1]) + if fs[|fs| - 1].Binary? || fs[|fs| - 1].Text? then [fs[|fs| - 1]] else []
  }

  /** The frame a message is carried by; a bare Close carries none. */
  function OnWire(m: Outbound): seq<Frame> {
    match m
    case AlertMsg(alert) => [Binary(alert)]
    case Control(message, _) => [Text(message)]
    case Close => []
  }

  function AllOnWire(ms: seq<Outbound>): seq<Frame> {
    if ms == [] then [] else AllOnWire(ms[..|ms| - 1]) + OnWire(ms[|ms| - 1])
  }

  lemma {:induction false} DataFramesByParts(a: seq<Frame>, b: seq<Frame>)
    ensures DataFrames(a + b) == DataFrames(a) + DataFrames(b)
  {
    if b == [] {
      assert a + b == a;
    } else {
      assert (a + b)[..|a + b| - 1] == a + b[..|b| - 1];
      DataFramesByParts(a, b[..|b| - 1]);
    }
  }

  lemma {:induction false} AllOnWireByParts(a: seq<Outbound>, b: seq<Outbound>)
    ensures AllOnWire(a + b) == AllOnWire(a) + AllOnWire(b)
  {
    if b == [] {
      assert a + b == a;
    } else {
      assert (a + b)[..|a + b| - 1] == a + b[..|b| - 1];
      AllOnWireByParts(a, b[..|b| - 1]);
    }
  }

  /** The messages the connection's queue accepted over the run, in order. */
  function AcceptedBy(dist: Distance, es: seq<Event>, id: ConnId): seq<Outbound> {
    if es == [] then []
    else
      var init := es[..|es| - 1];
      var before, now := QueueOf(Run(dist, START, init), id), QueueOf(Run(dist, START, es), id);
      AcceptedBy(dist, init, id) + if |now| > |before| then [MessageOf(es[|es| - 1])] else []
  }

  /** They are the messages of the steps that `Origins` lists, one for each. */
  lemma {:induction false} AcceptedAreOrigins(dist: Distance, es: seq<Event>, id: ConnId)
    ensures var (accepted, origins) := (AcceptedBy(dist, es, id), Origins(dist, es, id));
            && |accepted| == |origins|
            && forall k :: 0 <= k < |origins| ==> origins[k] < |es| && accepted[k] == MessageOf(es[origins[k]])
  {
    if es != [] {
      AcceptedAreOrigins(dist, es[..|es| - 1], id);
    }
  }

  /** No frame the writer could send to the connection failed. */
  predicate SendsSucceed(es: seq<Event>, id: ConnId) {
    forall i :: 0 <= i < |es| && es[i].Recv? && es[i].id == id ==> es[i].sent
  }

  /** Steps that take nothing from the queue carry no message. */
  lemma {:induction false} OnlyRecvCarries(dist: Distance, w: World, e: Event, id: ConnId)
    requires !(e.Recv? && e.id == id)
    ensures DataFrames(FramesOf(Step(dist, w, e), id)) == DataFrames(FramesOf(w, id))
  {
    var fs, now := FramesOf(w, id), FramesOf(Step(dist, w, e), id);
    if !OfRegistry(e) {
      OnlySignals(dist, w, e, id);
    }
    SignalsCarryNothing(fs);
  }

  lemma {:induction false} OnlySignals(dist: Distance, w: World, e: Event, id: ConnId)
    requires !OfRegistry(e) && !(e.Recv? && e.id == id)
    ensures FramesOf(Step(dist, w, e), id) in
              {FramesOf(w, id), FramesOf(w, id) + [PingFrame], FramesOf(w, id) + [CloseFrame]}
  {
    assert FramesOf(w, id) + [] == FramesOf(w, id);
  }

  lemma SignalsCarryNothing(fs: seq<Frame>)
    ensures DataFrames(fs + [PingFrame]) == DataFrames(fs) == DataFrames(fs + [CloseFrame])
  {
    assert (fs + [PingFrame])[..|fs|] == fs && (fs + [CloseFrame])[..|fs|] == fs;
  }

  lemma {:induction false} RecvCarriesFirst(dist: Distance, w: World, e: Event)
    requires e.Recv? && e.sent && Running(w, e.id) && w.reg.channel[e.id].queue != []
    ensures DataFrames(FramesOf(Step(dist, w, e), e.id)) ==
              DataFrames(FramesOf(w, e.id)) + OnWire(w.reg.channel[e.id].queue[0])
    ensures QueueOf(Step(dist, w, e), e.id) == QueueOf(w, e.id)[1..]
  {
    var more := RecvAddsWire(dist, w, e);
    DataFramesByParts(FramesOf(w, e.id), more);
    DataOfWritten(w.reg.channel[e.id].queue[0], more);
  }

  lemma {:induction false} RecvAddsWire(dist: Distance, w: World, e: Event) returns (more: seq<Frame>)
    requires e.Recv? && e.sent && Running(w, e.id) && w.reg.channel[e.id].queue != []
    ensures FramesOf(Step(dist, w, e), e.id) == FramesOf(w, e.id) + more
    ensures var wire := OnWire(w.reg.channel[e.id].queue[0]); more == wire || more == wire + [CloseFrame]
    ensures QueueOf(Step(dist, w, e), e.id) == QueueOf(w, e.id)[1..]
  {
    var m, fs := w.reg.channel[e.id].queue[0], FramesOf(w, e.id);
    RecvInNumbers(dist, w, e.id, e.sent, e.closeSent);
    var closes := (m.Close? || (m.Control? && m.close)) && e.closeSent;
    more := OnWire(m) + if closes then [CloseFrame] else [];
    assert fs + [] == fs;
  }

  lemma DataOfWritten(m: Outbound, more: seq<Frame>)
    requires more == OnWire(m) || more == OnWire(m) + [CloseFrame]
    ensures DataFrames(more) == OnWire(m)
  {
    var wire := OnWire(m);
    assert (wire + [CloseFrame])[..|wire|] == wire;
    assert wire != [] ==> wire[..0] == [];
  }

  /** The wire and the queue together: `frames` carry what was accepted up to what is still queued. */
  ghost predicate WireInOrder(frames: seq<Frame>, queue: seq<Outbound>, accepted: seq<Outbound>) {
    DataFrames(frames) + AllOnWire(queue) == AllOnWire(accepted)
  }

  lemma AcceptingKeepsWire(frames: seq<Frame>, queue: seq<Outbound>, accepted: seq<Outbound>, m: Outbound)
    requires WireInOrder(frames, queue, accepted)
    ensures WireInOrder(frames, queue + [m], accepted + [m])
  {
    assert (queue + [m])[..|queue|] == queue && (accepted + [m])[..|accepted|] == accepted;
  }

  lemma CarryingKeepsWire(before: seq<Frame>, now: seq<Frame>, queue: seq<Outbound>, accepted: seq<Outbound>)
    requires WireInOrder(before, queue, accepted) && queue != [] && DataFrames(now) == DataFrames(before) + OnWire(queue[0])
    ensures WireInOrder(now, queue[1..], accepted)
  {
    FirstOnWire(queue);
    Regrouped(DataFrames(before), OnWire(queue[0]), AllOnWire(queue[1..]));
  }

  lemma FirstOnWire(queue: seq<Outbound>)
    requires queue != []
    ensures AllOnWire(queue) == OnWire(queue[0]) + AllOnWire(queue[1..])
  {
    var first := [queue[0]];
    assert queue == first + queue[1..];
    AllOnWireByParts(first, queue[1..]);
    assert first[..0] == [] && AllOnWire(first[..0]) == [];
    assert AllOnWire(first) == OnWire(queue[0]);
  }

  lemma Regrouped(a: seq<Frame>, b: seq<Frame>, c: seq<Frame>)
    ensures a + (b + c) == (a + b) + c
  {
  }

  lemma {:induction false} StepKeepsWire(dist: Distance, w: World, e: Event, id: ConnId, accepted: seq<Outbound>)
    requires Inv(w.reg) && (e.Recv? && e.id == id ==> e.sent)
    requires WireInOrder(FramesOf(w, id), QueueOf(w, id), accepted)
    ensures var before, now := QueueOf(w, id), QueueOf(Step(dist, w, e), id);
            WireInOrder(FramesOf(Step(dist, w, e), id), now, accepted + if |now| > |before| then [MessageOf(e)] else [])
  {
    var before, now := QueueOf(w, id), QueueOf(Step(dist, w, e), id);
    assert accepted + [] == accepted;
    if e.Recv? && e.id == id {
      if Running(w, id) && before != [] {
        RecvCarriesFirst(dist, w, e);
        CarryingKeepsWire(FramesOf(w, id), FramesOf(Step(dist, w, e), id), before, accepted);
      }
    } else {
      OnlyRecvCarries(dist, w, e, id);
      QueueStaysOrGrows(dist, w, e, id);
      if |now| > |before| {
        AcceptingKeepsWire(FramesOf(w, id), before, accepted, MessageOf(e));
      }
    }
  }

  lemma {:induction false} QueueStaysOrGrows(dist: Distance, w: World, e: Event, id: ConnId)
    requires Inv(w.reg) && !(e.Recv? && e.id == id)
    ensures var before, now := QueueOf(w, id), QueueOf(Step(dist, w, e), id);
            now == before || now == before + [MessageOf(e)]
  {
    if id in w.reg.channel {
      StepMovesChannel(dist, w, e, id);
    } else if id in Step(dist, w, e).reg.channel {
      NewChannelIsEmpty(dist, w, e, id);
    }
  }

  /**
   Over every run in which sends succeed, what a connection was sent, followed by what is
   still queued for it, is exactly what its queue accepted: every message once, in order.
   */
  lemma {:induction false} WireCarriesTheQueue(dist: Distance, es: seq<Event>, id: ConnId)
    requires SendsSucceed(es, id)
    ensures var w := Run(dist, START, es);
            WireInOrder(FramesOf(w, id), QueueOf(w, id), AcceptedBy(dist, es, id))
  {
    if es != [] {
      var init, e := es[..|es| - 1], es[|es| - 1];
      WireCarriesTheQueue(dist, init, id);
      EmptyKeepsInv();
      RunKeepsInv(dist, START, init);
      StepKeepsWire(dist, Run(dist, START, init), e, id, AcceptedBy(dist, init, id));
    }
  }
}
