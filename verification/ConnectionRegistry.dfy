/**
 The registry as the worker uses it: an object whose methods update its maps in place
 (crates/fanout-worker/src/connection_registry.rs), the control messages applied to it
 (crates/fanout-worker/src/control.rs) and the fanout of a received alert
 (crates/fanout-worker/src/subscriber.rs). Each method is one of the functions of
 `Registry`.
 */
module ConnectionRegistries {
  import opened Options
  import opened Locations
  import opened Sequences
  import opened Registry
  import Connections

  /** The channels after the devices in `done` of the shard index `m` have been served. */
  function Served(r: Registry, dist: Distance, m: map<DeviceId, Connection>, done: set<DeviceId>, alert: Alert)
    : map<ConnId, Channel>
    requires done <= m.Keys
  {
    var ids := set d | d in done :: m[d].id;
    map id | id in r.channel ::
      if id in ids && InCircle(r, dist, alert, id) then r.channel[id].TrySend(AlertMsg(alert)) else r.channel[id]
  }

  /** No two devices of the index share a connection id. */
  ghost predicate Injective(m: map<DeviceId, Connection>) {
    forall d, e :: d in m && e in m && m[d].id == m[e].id ==> d == e
  }

  lemma ShardIsInjective(r: Registry, s: Shard)
    requires Inv(r)
    ensures Injective(ShardOf(r.byShard, s))
    ensures forall d :: d in ShardOf(r.byShard, s) ==> ShardOf(r.byShard, s)[d].id in r.channel
  {
    forall d | d in ShardOf(r.byShard, s) ensures d in r.byDevice && ShardOf(r.byShard, s)[d] == r.byDevice[d] {
      assert d in ShardOf(r.byShard, s) <==> d in r.byDevice && r.byDevice[d].shard == s;
    }
  }

  /** Serving one more device changes only its own channel. */
  lemma {:induction false} ServeOneMore(r: Registry, dist: Distance, m: map<DeviceId, Connection>, done: set<DeviceId>,
                                        d: DeviceId, alert: Alert)
    requires done <= m.Keys && d in m && d !in done && Injective(m) && m[d].id in r.channel
    ensures Served(r, dist, m, done, alert)[m[d].id] == r.channel[m[d].id]
    ensures Served(r, dist, m, done + {d}, alert) ==
              if InCircle(r, dist, alert, m[d].id)
              then SendTo(Served(r, dist, m, done, alert), m[d].id, AlertMsg(alert))
              else Served(r, dist, m, done, alert)
  {
    var before, after := Served(r, dist, m, done, alert), Served(r, dist, m, done + {d}, alert);
    var ids, more := set e | e in done :: m[e].id, set e | e in done + {d} :: m[e].id;
    assert more == ids + {m[d].id};
    assert m[d].id !in ids;
  }

  /** What a broadcast does with one connection of the shard. */
  datatype Fate = Queued | Refused | Outside

  function FateOf(r: Registry, dist: Distance, alert: Alert, id: ConnId): Fate {
    if !InCircle(r, dist, alert, id) then Outside else if HasRoom(r, id) then Queued else Refused
  }

  /** The devices among `done` whose connection meets this fate. */
  function WithFate(r: Registry, dist: Distance, m: map<DeviceId, Connection>, done: set<DeviceId>,
                    alert: Alert, fate: Fate): set<DeviceId>
    requires done <= m.Keys
  {
    set d | d in done && FateOf(r, dist, alert, m[d].id) == fate
  }

  function Tally(r: Registry, dist: Distance, m: map<DeviceId, Connection>, done: set<DeviceId>, alert: Alert): BroadcastResult
    requires done <= m.Keys
  {
    BroadcastResult(|WithFate(r, dist, m, done, alert, Queued)|,
                    |WithFate(r, dist, m, done, alert, Refused)|,
                    |WithFate(r, dist, m, done, alert, Outside)|)
  }

  function CountFate(result: BroadcastResult, fate: Fate): BroadcastResult {
    match fate
    case Queued => result.(delivered := result.delivered + 1)
    case Refused => result.(dropped := result.dropped + 1)
    case Outside => result.(filteredOut := result.filteredOut + 1)
  }

  lemma {:induction false} OneMoreWithFate(r: Registry, dist: Distance, m: map<DeviceId, Connection>, done: set<DeviceId>,
                                           alert: Alert, d: DeviceId, fate: Fate)
    requires done <= m.Keys && d in m && d !in done
    ensures |WithFate(r, dist, m, done + {d}, alert, fate)| ==
              |WithFate(r, dist, m, done, alert, fate)| + if FateOf(r, dist, alert, m[d].id) == fate then 1 else 0
  {
    var before, after := WithFate(r, dist, m, done, alert, fate), WithFate(r, dist, m, done + {d}, alert, fate);
    if FateOf(r, dist, alert, m[d].id) == fate {
      assert after == before + {d};
    } else {
      assert after == before;
    }
  }

  lemma {:induction false} TallyOneMore(r: Registry, dist: Distance, m: map<DeviceId, Connection>, done: set<DeviceId>,
                                        alert: Alert, d: DeviceId)
    requires done <= m.Keys && d in m && d !in done
    ensures Tally(r, dist, m, done + {d}, alert) == CountFate(Tally(r, dist, m, done, alert), FateOf(r, dist, alert, m[d].id))
  {
    OneMoreWithFate(r, dist, m, done, alert, d, Queued);
    OneMoreWithFate(r, dist, m, done, alert, d, Refused);
    OneMoreWithFate(r, dist, m, done, alert, d, Outside);
  }

  lemma MoveOne(keys: set<DeviceId>, todo: set<DeviceId>, done: set<DeviceId>, d: DeviceId)
    requires todo !! done && todo + done == keys && d in todo
    ensures (todo - {d}) !! (done + {d}) && (todo - {d}) + (done + {d}) == keys
  {
  }

  lemma {:induction false} ServedNothing(r: Registry, dist: Distance, m: map<DeviceId, Connection>, alert: Alert)
    ensures Served(r, dist, m, {}, alert) == r.channel
  {
  }

  /** A new connection has an id never used before and an empty, open channel. */
  lemma RegisterIsFresh(r: Registry, d: DeviceId, s: Shard, loc: Location)
    requires CellsKnown(r) && IdsUnique(r)
    ensures var after := Register(r, d, s, loc);
            && Current(after, d, after.nextId) && after.nextId !in r.channel
            && after.nextId in after.channel && after.channel[after.nextId] == Channel([], true)
  {
  }

  /** One connection of the shard: filtered out, or tried and counted. */
  method ServeOne(r: Registry, dist: Distance, before: map<ConnId, Channel>, sofar: BroadcastResult, id: ConnId, alert: Alert)
    returns (queues: map<ConnId, Channel>, result: BroadcastResult)
    requires id in r.channel && id in before && before[id] == r.channel[id]
    ensures queues == if InCircle(r, dist, alert, id) then SendTo(before, id, AlertMsg(alert)) else before
    ensures result == CountFate(sofar, FateOf(r, dist, alert, id))
  {
    queues, result := before, sofar;
    if !(id in r.location && alert.Contains(dist, r.location[id])) {
      result := CountFate(result, Outside);
    } else {
      result := CountFate(result, if queues[id].Room() then Queued else Refused);
      queues := SendTo(queues, id, AlertMsg(alert));
    }
  }

  /** The broadcast loop over the shard's connections, in whatever order the map yields them. */
  method ServeAll(r: Registry, dist: Distance, shard: map<DeviceId, Connection>, alert: Alert)
    returns (queues: map<ConnId, Channel>, result: BroadcastResult)
    requires Injective(shard) && forall d :: d in shard ==> shard[d].id in r.channel
    ensures queues == Served(r, dist, shard, shard.Keys, alert)
    ensures result == Tally(r, dist, shard, shard.Keys, alert)
  {
    queues, result := r.channel, BroadcastResult(0, 0, 0);
    var todo := shard.Keys;
    ghost var done: set<DeviceId> := {};
    ServedNothing(r, dist, shard, alert);
    while todo != {}
      invariant todo !! done && todo + done == shard.Keys
      invariant queues == Served(r, dist, shard, done, alert)
      invariant result == Tally(r, dist, shard, done, alert)
      decreases todo
    {
      var d :| d in todo;
      var id := shard[d].id;
      ServeOneMore(r, dist, shard, done, d, alert);
      TallyOneMore(r, dist, shard, done, alert, d);
      queues, result := ServeOne(r, dist, queues, result, id, alert);
      MoveOne(shard.Keys, todo, done, d);
      done := done + {d};
      todo := todo - {d};
    }
    assert done == shard.Keys;
  }

  /** The channels after the devices in `done` were told to close. */
  function Closed(r: Registry, done: set<DeviceId>): map<ConnId, Channel>
    requires done <= r.byDevice.Keys
  {
    var ids := set d | d in done :: r.byDevice[d].id;
    map id | id in r.channel :: if id in ids then r.channel[id].TrySend(Close) else r.channel[id]
  }

  lemma CloseOneMore(r: Registry, done: set<DeviceId>, d: DeviceId)
    requires Inv(r) && done <= r.byDevice.Keys && d in r.byDevice && d !in done
    ensures Closed(r, done + {d}) == SendTo(Closed(r, done), r.byDevice[d].id, Close)
  {
    var ids, more := set e | e in done :: r.byDevice[e].id, set e | e in done + {d} :: r.byDevice[e].id;
    assert more == ids + {r.byDevice[d].id};
    assert r.byDevice[d].id !in ids;
  }

  lemma ClosedEverywhere(r: Registry)
    ensures Closed(r, r.byDevice.Keys) == CloseAll(r).channel
  {
    assert (set d | d in r.byDevice.Keys :: r.byDevice[d].id) == LiveIds(r);
  }

  lemma ClosedNowhere(r: Registry)
    ensures Closed(r, {}) == r.channel
  {
  }

  /** The loop of `close_all`: a closing message to every connection that has room for it. */
  method CloseEach(r: Registry) returns (queues: map<ConnId, Channel>)
    requires Inv(r)
    ensures queues == CloseAll(r).channel
  {
    queues := r.channel;
    var todo := r.byDevice.Keys;
    ghost var done: set<DeviceId> := {};
    ClosedNowhere(r);
    while todo != {}
      invariant todo !! done && todo + done == r.byDevice.Keys
      invariant queues == Closed(r, done)
      decreases todo
    {
      var d :| d in todo;
      CloseOneMore(r, done, d);
      queues := SendTo(queues, r.byDevice[d].id, Close);
      MoveOne(r.byDevice.Keys, todo, done, d);
      done := done + {d};
      todo := todo - {d};
    }
    assert done == r.byDevice.Keys;
    ClosedEverywhere(r);
  }

  class ConnectionRegistry {
    var nextId: ConnId
    var byDevice: map<DeviceId, Connection>
    var byShard: map<Shard, map<DeviceId, Connection>>
    var location: map<ConnId, Location>
    var channel: map<ConnId, Channel>

    function State(): Registry
      reads this
    {
      Registry(nextId, byDevice, byShard, location, channel)
    }

    ghost predicate Valid()
      reads this
    {
      Inv(State())
    }

    constructor ()
      ensures Valid() && State() == EMPTY
    {
      nextId, byDevice, byShard, location, channel := 0, map[], map[], map[], map[];
    }

    method RegisterConnection(d: DeviceId, s: Shard, loc: Location) returns (connId: ConnId)
      requires Valid()
      modifies this
      ensures Valid() && State() == Register(old(State()), d, s, loc)
      ensures connId == nextId && Current(State(), d, connId)
      ensures connId !in old(channel) && channel[connId] == Channel([], true)
    {
      ghost var r := State();
      nextId := nextId + 1;
      var conn := Connection(nextId, s);
      connId := conn.id;
      location := location[connId := loc];
      channel := channel[connId := Channel([], true)];
      var previous := if d in byDevice then Some(byDevice[d]) else None;
      byDevice := byDevice[d := conn];
      if previous.Some? {
        channel := SendTo(channel, previous.value.id, Close);
        byShard := Unindex(byShard, d, previous.value);
      }
      byShard := Index(byShard, d, conn);
      assert State() == Register(r, d, s, loc);
      RegisterKeepsInv(r, d, s, loc);
      RegisterIsFresh(r, d, s, loc);
    }

    method DeregisterConnection(d: DeviceId, connId: ConnId) returns (removed: bool)
      requires Valid()
      modifies this
      ensures Valid() && State() == Deregister(old(State()), d, connId)
      ensures removed == Current(old(State()), d, connId)
    {
      DeregisterKeepsInv(State(), d, connId);
      removed := d in byDevice && byDevice[d].id == connId;
      if removed {
        var conn := byDevice[d];
        byDevice := byDevice - {d};
        byShard := Unindex(byShard, d, conn);
      }
    }

    method BroadcastToShard(dist: Distance, s: Shard, alert: Alert) returns (result: BroadcastResult)
      requires Valid()
      modifies this`channel
      ensures Valid() && State() == Broadcast(old(State()), dist, s, alert)
      ensures result.delivered == |Delivered(old(State()), dist, s, alert)|
      ensures result.dropped == |Dropped(old(State()), dist, s, alert)|
      ensures result.filteredOut == |FilteredOut(old(State()), dist, s, alert)|
      ensures result.delivered + result.dropped + result.filteredOut == ShardCount(old(State()), s)
    {
      ghost var r := State();
      var shard := ShardOf(byShard, s);
      ShardIsInjective(r, s);
      var queues;
      queues, result := ServeAll(State(), dist, shard, alert);
      channel := queues;
      assert WithFate(r, dist, shard, shard.Keys, alert, Queued) == Delivered(r, dist, s, alert);
      assert WithFate(r, dist, shard, shard.Keys, alert, Refused) == Dropped(r, dist, s, alert);
      assert WithFate(r, dist, shard, shard.Keys, alert, Outside) == FilteredOut(r, dist, s, alert);
      assert ShardIds(r, s) == set d | d in shard.Keys :: shard[d].id;
      assert State() == Broadcast(r, dist, s, alert);
      BroadcastKeepsInv(r, dist, s, alert);
      BroadcastConserves(r, dist, s, alert);
    }

    method UpdateDeviceLocation(d: DeviceId, loc: Location) returns (here: bool)
      requires Valid()
      modifies this`location
      ensures Valid() && State() == UpdateLocation(old(State()), d, loc) && here == (d in byDevice)
    {
      UpdateLocationKeepsInv(State(), d, loc);
      here := d in byDevice;
      if here {
        location := location[byDevice[d].id := loc];
      }
    }

    method SendControlMessage(d: DeviceId, m: ServerMessage, close: bool) returns (here: bool)
      requires Valid()
      modifies this
      ensures Valid() && State() == SendControl(old(State()), d, m, close)
      ensures here == (d in old(byDevice))
    {
      SendControlKeepsInv(State(), d, m, close);
      if d !in byDevice {
        return false;
      }
      var id := byDevice[d].id;
      var sent := id in channel && channel[id].Room();
      channel := SendTo(channel, id, Control(m, close));
      if !sent && close {
        var _ := DeregisterConnection(d, id);
      }
      here := true;
    }

    /**
     Whether a sender of this very connection can still be had. It can exactly while the
     shard index holds the connection for the device, so a replay sends to a connection
     that live fanout reaches too; no other device has that connection.
     */
    method SenderFor(d: DeviceId, connId: ConnId) returns (available: bool)
      requires Valid()
      ensures available <==> exists s :: d in ShardOf(byShard, s) && ShardOf(byShard, s)[d].id == connId
      ensures available ==> connId in LiveIds(State()) && connId in channel && |channel[connId].queue| <= CAPACITY
      ensures available ==> forall e :: e != d ==> !Current(State(), e, connId)
    {
      available := d in byDevice && byDevice[d].id == connId;
      if available {
        assert d in ShardOf(byShard, byDevice[d].shard);
      }
    }

    /** Tells every connection to close, then forgets them all. */
    method CloseAllConnections()
      requires Valid()
      modifies this
      ensures Valid() && State() == CloseAll(old(State()))
    {
      ghost var r := State();
      CloseAllKeepsInv(r);
      channel := CloseEach(State());
      byDevice := map[];
      byShard := map[];
    }

    method ConnectionCount() returns (n: nat)
      requires Valid()
      ensures n == |byDevice|
      ensures forall shards :: NoRepeats(shards) && (forall d :: d in byDevice ==> byDevice[d].shard in shards) ==>
                SumCounts(State(), shards) == n
    {
      n := |byDevice|;
      forall shards | NoRepeats(shards) && (forall d :: d in byDevice ==> byDevice[d].shard in shards)
        ensures SumCounts(State(), shards) == n
      {
        CountsSumToConnections(State(), shards);
      }
    }

    method ShardConnectionCount(s: Shard) returns (n: nat)
      requires Valid()
      ensures n == ShardCount(State(), s) == |DevicesOf(State(), s)|
    {
      ShardHoldsItsDevices(State(), s);
      n := if s in byShard then |byShard[s]| else 0;
    }
  }

  // ------------------------------------------------------------------
  // Control messages and received alerts
  // ------------------------------------------------------------------

  datatype Handled = Ignored | LocationApplied | Forwarded | NotConnectedHere

  /** What one control message does to the registry. */
  function ApplyControl(r: Registry, d: DeviceId, m: ServerMessage): Registry {
    match m
    case LocationUpdated(lat, lon) =>
      (match NewLocation(lat, lon)
       case Some(loc) => UpdateLocation(r, d, loc)
       case None => r)
    case ShardChanged(_, _) => SendControl(r, d, m, true)
    case Revoked => SendControl(r, d, m, true)
    case ReplayComplete(_) => r
  }

  /**
   The device must act on a change of shard or a revocation: after either, its
   connection has at most 64 more messages to go, whatever its queue held.
   */
  lemma ClosingControlEnds(w: Connections.World, d: DeviceId, m: ServerMessage)
    requires Inv(w.reg) && d in w.reg.byDevice && (m.ShardChanged? || m.Revoked?)
    ensures var id := w.reg.byDevice[d].id;
            id !in w.replaying ==> Connections.EndsWithin(w.(reg := ApplyControl(w.reg, d, m)), id, 64)
  {
    Connections.ToldToCloseEnds(w, d, m);
  }

  /** The message itself goes out first, if there is room for it, marked as the last. */
  lemma ClosingControlIsQueued(r: Registry, d: DeviceId, m: ServerMessage)
    requires Inv(r) && d in r.byDevice && (m.ShardChanged? || m.Revoked?)
    ensures var id := r.byDevice[d].id;
            && id in r.channel && id in ApplyControl(r, d, m).channel
            && ApplyControl(r, d, m).channel[id] == Tried(r.channel[id], Control(m, true))
  {
    SendControlInNumbers(r, d, m, true, r.byDevice[d].id);
  }

  /** A message whose subject or payload does not parse is ignored. */
  method HandleControl(registry: ConnectionRegistry, device: Option<DeviceId>, message: Option<ServerMessage>)
    returns (outcome: Handled)
    requires registry.Valid()
    modifies registry
    ensures registry.Valid()
    ensures device.None? || message.None? ==> outcome == Ignored && registry.State() == old(registry.State())
    ensures device.Some? && message.Some? ==>
              registry.State() == ApplyControl(old(registry.State()), device.value, message.value)
    ensures outcome in {Ignored, NotConnectedHere} ==> registry.State() == old(registry.State())
    ensures outcome in {LocationApplied, Forwarded} ==> device.Some? && device.value in old(registry.byDevice)
    ensures outcome == LocationApplied ==> registry.channel == old(registry.channel)
    ensures device.Some? && message.Some? ==>
              var (here, m) := (device.value in old(registry.byDevice), message.value);
              outcome ==
                if m.ReplayComplete? || (m.LocationUpdated? && !(-90.0 <= m.lat <= 90.0 && -180.0 <= m.lon <= 180.0)) then Ignored
                else if !here then NotConnectedHere
                else if m.LocationUpdated? then LocationApplied else Forwarded
  {
    if device.None? || message.None? {
      return Ignored;
    }
    var d, m := device.value, message.value;
    match m {
      case LocationUpdated(lat, lon) =>
        var loc := NewLocation(lat, lon);
        if loc.None? {
          return Ignored;
        }
        var here := registry.UpdateDeviceLocation(d, loc.value);
        outcome := if here then LocationApplied else NotConnectedHere;
      case ShardChanged(_, _) =>
        var here := registry.SendControlMessage(d, m, true);
        outcome := if here then Forwarded else NotConnectedHere;
      case Revoked =>
        var here := registry.SendControlMessage(d, m, true);
        outcome := if here then Forwarded else NotConnectedHere;
      case ReplayComplete(_) =>
        outcome := Ignored;
    }
  }

  /** A payload that is not an alert touches no socket. */
  method Fanout(registry: ConnectionRegistry, dist: Distance, s: Shard, payload: Option<Alert>)
    returns (result: Option<BroadcastResult>)
    requires registry.Valid()
    modifies registry`channel
    ensures registry.Valid() && result.None? == payload.None?
    ensures registry.State() ==
              if payload.Some? then Broadcast(old(registry.State()), dist, s, payload.value) else old(registry.State())
    ensures result.Some? ==>
              result.value.delivered + result.value.dropped + result.value.filteredOut == ShardCount(old(registry.State()), s)
  {
    if payload.None? {
      return None;
    }
    var r := registry.BroadcastToShard(dist, s, payload.value);
    result := Some(r);
  }
}
