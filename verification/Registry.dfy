/**
 The connection registry (crates/fanout-worker/src/connection_registry.rs) as functions
 on its state, one per public method, and the invariant they keep. An
 `Arc<Connection>` is its immutable part (`Connection`); the location and the channel
 it shares are found by connection id.
 */
module Registry {
  import opened Options
  import opened Locations
  import opened Sequences

  type DeviceId = nat
  type ConnId = nat
  type Shard = string

  /** `CONNECTION_CHANNEL_CAPACITY`. */
  const CAPACITY: nat := 64

  datatype Alert = Alert(id: nat, centre: Location, radius: real, createdAt: int) {
    /** The great-circle distance to the point is within the radius. */
    predicate Contains(dist: Distance, p: Location) {
      dist(centre, p) <= radius
    }
  }

  datatype ServerMessage =
    | ShardChanged(shard: Shard, url: Option<string>)
    | Revoked
    | LocationUpdated(lat: real, lon: real)
    | ReplayComplete(replayed: nat)

  /** What a connection's writer is given to send. */
  datatype Outbound = AlertMsg(alert: Alert) | Control(message: ServerMessage, close: bool) | Close {
    predicate Closing() { Close? || (Control? && close) }
  }

  datatype Connection = Connection(id: ConnId, shard: Shard)

  /** A bounded queue; it is closed once its receiver, the writer task, is gone. */
  datatype Channel = Channel(queue: seq<Outbound>, receiverOpen: bool) {
    predicate Room() { receiverOpen && |queue| < CAPACITY }

    /** `try_send`: queues the message or, without room, does nothing. */
    function TrySend(m: Outbound): Channel {
      if Room() then this.(queue := queue + [m]) else this
    }
  }

  datatype Registry = Registry(
    nextId: ConnId,
    byDevice: map<DeviceId, Connection>,
    byShard: map<Shard, map<DeviceId, Connection>>,
    location: map<ConnId, Location>,
    channel: map<ConnId, Channel>)

  const EMPTY := Registry(0, map[], map[], map[], map[])

  // ------------------------------------------------------------------
  // The operations
  // ------------------------------------------------------------------

  /** The connections indexed under a shard; an unknown shard is simply empty. */
  function ShardOf(byShard: map<Shard, map<DeviceId, Connection>>, s: Shard): map<DeviceId, Connection> {
    if s in byShard then byShard[s] else map[]
  }

  /** `remove_if`: drops the entry only if it is the connection with this id. */
  function RemoveIf(m: map<DeviceId, Connection>, d: DeviceId, id: ConnId): map<DeviceId, Connection> {
    if d in m && m[d].id == id then m - {d} else m
  }

  function Unindex(byShard: map<Shard, map<DeviceId, Connection>>, d: DeviceId, c: Connection)
    : map<Shard, map<DeviceId, Connection>>
  {
    if c.shard in byShard then byShard[c.shard := RemoveIf(byShard[c.shard], d, c.id)] else byShard
  }

  function Index(byShard: map<Shard, map<DeviceId, Connection>>, d: DeviceId, c: Connection)
    : map<Shard, map<DeviceId, Connection>>
  {
    byShard[c.shard := ShardOf(byShard, c.shard)[d := c]]
  }

  function SendTo(channel: map<ConnId, Channel>, id: ConnId, m: Outbound): map<ConnId, Channel> {
    if id in channel then channel[id := channel[id].TrySend(m)] else channel
  }

  /** Registers a new connection; an older one of the device is told to close and replaced. */
  function Register(r: Registry, d: DeviceId, s: Shard, loc: Location): Registry {
    var c := Connection(r.nextId + 1, s);
    var channel := r.channel[c.id := Channel([], true)];
    if d in r.byDevice then
      var previous := r.byDevice[d];
      Registry(c.id, r.byDevice[d := c], Index(Unindex(r.byShard, d, previous), d, c),
               r.location[c.id := loc], SendTo(channel, previous.id, Close))
    else
      Registry(c.id, r.byDevice[d := c], Index(r.byShard, d, c), r.location[c.id := loc], channel)
  }

  /** `id` is the device's current connection. */
  predicate Current(r: Registry, d: DeviceId, id: ConnId) {
    d in r.byDevice && r.byDevice[d].id == id
  }

  /** Removes the connection if it is still the one with this id; `Current` says whether. */
  function Deregister(r: Registry, d: DeviceId, id: ConnId): Registry {
    if Current(r, d, id)
    then r.(byDevice := r.byDevice - {d}, byShard := Unindex(r.byShard, d, r.byDevice[d]))
    else r
  }

  predicate InCircle(r: Registry, dist: Distance, alert: Alert, id: ConnId) {
    id in r.location && alert.Contains(dist, r.location[id])
  }

  predicate HasRoom(r: Registry, id: ConnId) {
    id in r.channel && r.channel[id].Room()
  }

  /** The ids of the connections of a shard. */
  function ShardIds(r: Registry, s: Shard): set<ConnId> {
    var m := ShardOf(r.byShard, s);
    set d | d in m :: m[d].id
  }

  /** Queues the alert to every connection of the shard that is inside the circle. */
  function Broadcast(r: Registry, dist: Distance, s: Shard, alert: Alert): Registry {
    var ids := ShardIds(r, s);
    r.(channel := map id | id in r.channel ::
         if id in ids && InCircle(r, dist, alert, id) then r.channel[id].TrySend(AlertMsg(alert)) else r.channel[id])
  }

  datatype BroadcastResult = BroadcastResult(delivered: nat, dropped: nat, filteredOut: nat)

  function Delivered(r: Registry, dist: Distance, s: Shard, alert: Alert): set<DeviceId> {
    var m := ShardOf(r.byShard, s);
    set d | d in m && InCircle(r, dist, alert, m[d].id) && HasRoom(r, m[d].id)
  }

  function Dropped(r: Registry, dist: Distance, s: Shard, alert: Alert): set<DeviceId> {
    var m := ShardOf(r.byShard, s);
    set d | d in m && InCircle(r, dist, alert, m[d].id) && !HasRoom(r, m[d].id)
  }

  function FilteredOut(r: Registry, dist: Distance, s: Shard, alert: Alert): set<DeviceId> {
    var m := ShardOf(r.byShard, s);
    set d | d in m && !InCircle(r, dist, alert, m[d].id)
  }

  function UpdateLocation(r: Registry, d: DeviceId, loc: Location): Registry {
    if d in r.byDevice then r.(location := r.location[r.byDevice[d].id := loc]) else r
  }

  /** A closing message that does not fit drops the connection instead. */
  function SendControl(r: Registry, d: DeviceId, m: ServerMessage, close: bool): Registry {
    if d !in r.byDevice then r
    else
      var id := r.byDevice[d].id;
      if HasRoom(r, id) then r.(channel := SendTo(r.channel, id, Control(m, close)))
      else if close then Deregister(r, d, id)
      else r
  }

  function LiveIds(r: Registry): set<ConnId> {
    set d | d in r.byDevice :: r.byDevice[d].id
  }

  function CloseAll(r: Registry): Registry {
    var ids := LiveIds(r);
    r.(byDevice := map[], byShard := map[],
       channel := map id | id in r.channel :: if id in ids then r.channel[id].TrySend(Close) else r.channel[id])
  }

  // ------------------------------------------------------------------
  // The invariant
  // ------------------------------------------------------------------

  /** The shard index holds exactly the current connections, each under its own shard. */
  ghost predicate IndexesAgree(r: Registry) {
    forall s, d {:trigger ShardOf(r.byShard, s), d in r.byDevice} ::
      && (d in ShardOf(r.byShard, s) <==> d in r.byDevice && r.byDevice[d].shard == s)
      && (d in ShardOf(r.byShard, s) ==> ShardOf(r.byShard, s)[d] == r.byDevice[d])
  }

  /** Ids are handed out once: never zero, never above the counter, never shared. */
  ghost predicate IdsUnique(r: Registry) {
    && (forall d :: d in r.byDevice ==> 1 <= r.byDevice[d].id <= r.nextId)
    && (forall d, e :: d in r.byDevice && e in r.byDevice && r.byDevice[d].id == r.byDevice[e].id ==> d == e)
  }

  ghost predicate CellsKnown(r: Registry) {
    && (forall id :: id in r.channel <==> 1 <= id <= r.nextId)
    && (forall id :: id in r.location <==> 1 <= id <= r.nextId)
  }

  ghost predicate QueuesBounded(r: Registry) {
    forall id :: id in r.channel ==> |r.channel[id].queue| <= CAPACITY
  }

  ghost predicate Inv(r: Registry) {
    IndexesAgree(r) && IdsUnique(r) && CellsKnown(r) && QueuesBounded(r)
  }

  lemma EmptyKeepsInv()
    ensures Inv(EMPTY)
  {
  }

  lemma RegisterAgrees(r: Registry, d: DeviceId, s: Shard, loc: Location)
    requires IndexesAgree(r)
    ensures IndexesAgree(Register(r, d, s, loc))
  {
    var after := Register(r, d, s, loc);
    var c := Connection(r.nextId + 1, s);
    forall t, e
      ensures e in ShardOf(after.byShard, t) <==> e in after.byDevice && after.byDevice[e].shard == t
      ensures e in ShardOf(after.byShard, t) ==> ShardOf(after.byShard, t)[e] == after.byDevice[e]
    {
      assert e in ShardOf(r.byShard, t) <==> e in r.byDevice && r.byDevice[e].shard == t;
      if e == d {
        if d in r.byDevice {
          assert d in ShardOf(r.byShard, r.byDevice[d].shard);
        }
      }
    }
  }

  lemma RegisterKeepsInv(r: Registry, d: DeviceId, s: Shard, loc: Location)
    requires Inv(r)
    ensures Inv(Register(r, d, s, loc))
  {
    RegisterAgrees(r, d, s, loc);
    RegisterKeepsIds(r, d, s, loc);
    RegisterKeepsCells(r, d, s, loc);
  }

  lemma RegisterKeepsIds(r: Registry, d: DeviceId, s: Shard, loc: Location)
    requires IdsUnique(r)
    ensures IdsUnique(Register(r, d, s, loc))
  {
  }

  lemma RegisterKeepsCells(r: Registry, d: DeviceId, s: Shard, loc: Location)
    requires CellsKnown(r) && QueuesBounded(r)
    ensures CellsKnown(Register(r, d, s, loc)) && QueuesBounded(Register(r, d, s, loc))
  {
  }

  lemma DeregisterKeepsInv(r: Registry, d: DeviceId, id: ConnId)
    requires Inv(r)
    ensures Inv(Deregister(r, d, id))
  {
    var after := Deregister(r, d, id);
    if Current(r, d, id) {
      forall t, e
        ensures e in ShardOf(after.byShard, t) <==> e in after.byDevice && after.byDevice[e].shard == t
        ensures e in ShardOf(after.byShard, t) ==> ShardOf(after.byShard, t)[e] == after.byDevice[e]
      {
        assert e in ShardOf(r.byShard, t) <==> e in r.byDevice && r.byDevice[e].shard == t;
      }
    }
  }

  lemma {:induction false} BroadcastKeepsInv(r: Registry, dist: Distance, s: Shard, alert: Alert)
    requires Inv(r)
    ensures Inv(Broadcast(r, dist, s, alert))
  {
  }

  lemma UpdateLocationKeepsInv(r: Registry, d: DeviceId, loc: Location)
    requires Inv(r)
    ensures Inv(UpdateLocation(r, d, loc))
  {
  }

  lemma SendControlKeepsInv(r: Registry, d: DeviceId, m: ServerMessage, close: bool)
    requires Inv(r)
    ensures Inv(SendControl(r, d, m, close))
  {
    if d in r.byDevice && !HasRoom(r, r.byDevice[d].id) {
      DeregisterKeepsInv(r, d, r.byDevice[d].id);
    }
  }

  lemma CloseAllKeepsInv(r: Registry)
    requires Inv(r)
    ensures Inv(CloseAll(r))
  {
  }

  // ------------------------------------------------------------------
  // Consequences
  // ------------------------------------------------------------------

  /** `shard_connection_count`. */
  function ShardCount(r: Registry, s: Shard): nat {
    |ShardOf(r.byShard, s)|
  }

  function SumCounts(r: Registry, shards: seq<Shard>): nat {
    if shards == [] then 0 else SumCounts(r, shards[..|shards| - 1]) + ShardCount(r, shards[|shards| - 1])
  }

  function DevicesIn(r: Registry, shards: seq<Shard>): set<DeviceId> {
    set d | d in r.byDevice && r.byDevice[d].shard in shards
  }

  function DevicesOf(r: Registry, s: Shard): set<DeviceId> {
    set d | d in r.byDevice && r.byDevice[d].shard == s
  }

  lemma ShardHoldsItsDevices(r: Registry, s: Shard)
    requires IndexesAgree(r)
    ensures ShardOf(r.byShard, s).Keys == DevicesOf(r, s) && ShardCount(r, s) == |DevicesOf(r, s)|
  {
    var m := ShardOf(r.byShard, s);
    forall d ensures d in m.Keys <==> d in DevicesOf(r, s) {
    }
    assert m.Keys == DevicesOf(r, s) && |m| == |m.Keys|;
  }

  lemma OneMoreShard(r: Registry, shards: seq<Shard>, last: Shard)
    requires last !in shards
    ensures |DevicesIn(r, shards + [last])| == |DevicesIn(r, shards)| + |DevicesOf(r, last)|
  {
    assert DevicesIn(r, shards + [last]) == DevicesIn(r, shards) + DevicesOf(r, last);
    assert DevicesIn(r, shards) !! DevicesOf(r, last);
  }

  lemma {:induction false} CountsCoverListedShards(r: Registry, shards: seq<Shard>)
    requires IndexesAgree(r) && NoRepeats(shards)
    ensures SumCounts(r, shards) == |DevicesIn(r, shards)|
  {
    if shards == [] {
      assert DevicesIn(r, shards) == {};
    } else {
      var n := |shards| - 1;
      CountsCoverListedShards(r, shards[..n]);
      ShardHoldsItsDevices(r, shards[n]);
      OneMoreShard(r, shards[..n], shards[n]);
      assert shards == shards[..n] + [shards[n]];
    }
  }

  /** Over any list of shards that covers the live ones, the counts add up to `connection_count`. */
  lemma CountsSumToConnections(r: Registry, shards: seq<Shard>)
    requires Inv(r) && NoRepeats(shards)
    requires forall d :: d in r.byDevice ==> r.byDevice[d].shard in shards
    ensures SumCounts(r, shards) == |r.byDevice|
  {
    CountsCoverListedShards(r, shards);
    assert DevicesIn(r, shards) == r.byDevice.Keys;
  }

  /** Every connection of the shard is delivered to, dropped or filtered out, and only one of these. */
  lemma {:induction false} BroadcastConserves(r: Registry, dist: Distance, s: Shard, alert: Alert)
    ensures |Delivered(r, dist, s, alert)| + |Dropped(r, dist, s, alert)| + |FilteredOut(r, dist, s, alert)|
              == ShardCount(r, s)
  {
    var a, b, c := Delivered(r, dist, s, alert), Dropped(r, dist, s, alert), FilteredOut(r, dist, s, alert);
    var keys := ShardOf(r.byShard, s).Keys;
    forall d ensures d in keys <==> d in a || d in b || d in c {
    }
    ThreeParts(keys, a, b, c);
  }

  lemma ThreeParts(all: set<DeviceId>, a: set<DeviceId>, b: set<DeviceId>, c: set<DeviceId>)
    requires a !! b && a !! c && b !! c && forall d :: d in all <==> d in a || d in b || d in c
    ensures |a| + |b| + |c| == |all|
  {
    assert all == a + b + c;
    assert |a + b + c| == |a + b| + |c|;
  }

  /**
   Exactly the delivered connections' queues grow, each by this one alert; no queue
   outside the shard or outside the circle changes.
   */
  lemma {:induction false} BroadcastTouchesOnlyDelivered(r: Registry, dist: Distance, s: Shard, alert: Alert, id: ConnId)
    requires Inv(r) && id in r.channel
    ensures var after := Broadcast(r, dist, s, alert);
            after.channel[id] ==
              if exists d :: d in Delivered(r, dist, s, alert) && r.byDevice[d].id == id
              then r.channel[id].(queue := r.channel[id].queue + [AlertMsg(alert)])
              else r.channel[id]
  {
    var m := ShardOf(r.byShard, s);
    forall d | d in m ensures d in r.byDevice && m[d] == r.byDevice[d] {
      assert d in ShardOf(r.byShard, s) <==> d in r.byDevice && r.byDevice[d].shard == s;
    }
    if id in ShardIds(r, s) && InCircle(r, dist, alert, id) && HasRoom(r, id) {
      var d :| d in m && m[d].id == id;
      assert d in Delivered(r, dist, s, alert) && r.byDevice[d].id == id;
    }
  }

  // ------------------------------------------------------------------
  // Each operation in numbers
  // ------------------------------------------------------------------

  /** A channel takes a message while its receiver is there and it holds fewer than 64; otherwise nothing changes. */
  lemma TrySendInNumbers(ch: Channel, m: Outbound)
    ensures ch.receiverOpen && |ch.queue| < 64 ==> ch.TrySend(m) == Channel(ch.queue + [m], true)
    ensures !(ch.receiverOpen && |ch.queue| < 64) ==> ch.TrySend(m) == ch
  {
  }

  /** What a channel is after a message was tried. */
  function Tried(ch: Channel, m: Outbound): Channel {
    if ch.receiverOpen && |ch.queue| < 64 then Channel(ch.queue + [m], true) else ch
  }

  /** The id belongs to a device that is now connected to the shard, and to nothing else. */
  ghost predicate ConnectedTo(r: Registry, s: Shard, id: ConnId) {
    exists d :: d in r.byDevice && r.byDevice[d] == Connection(id, s)
  }

  /**
   A broadcast tries the alert on exactly the connections of devices now connected to
   the shard whose position is within the radius of the centre; every other stays.
   */
  lemma {:induction false} BroadcastInNumbers(r: Registry, dist: Distance, s: Shard, alert: Alert, id: ConnId)
    requires Inv(r) && id in r.channel
    ensures id in Broadcast(r, dist, s, alert).channel && id in r.location
    ensures Broadcast(r, dist, s, alert).channel[id] ==
              if ConnectedTo(r, s, id) && dist(alert.centre, r.location[id]) <= alert.radius
              then Tried(r.channel[id], AlertMsg(alert)) else r.channel[id]
  {
    ConnectedIsIndexed(r, s, id);
    TrySendInNumbers(r.channel[id], AlertMsg(alert));
  }

  lemma ConnectedIsIndexed(r: Registry, s: Shard, id: ConnId)
    requires Inv(r)
    ensures ConnectedTo(r, s, id) <==> id in ShardIds(r, s)
  {
    var m := ShardOf(r.byShard, s);
    if ConnectedTo(r, s, id) {
      var d :| d in r.byDevice && r.byDevice[d] == Connection(id, s);
      assert d in m && m[d] == r.byDevice[d];
    }
    if id in ShardIds(r, s) {
      var d :| d in m && m[d].id == id;
      assert d in r.byDevice && r.byDevice[d] == m[d] && r.byDevice[d].shard == s;
    }
  }

  /** The three counts, in numbers: who is delivered to, who is dropped and who is filtered out. */
  lemma {:induction false} FatesInNumbers(r: Registry, dist: Distance, s: Shard, alert: Alert, d: DeviceId)
    requires Inv(r)
    ensures d in Delivered(r, dist, s, alert) + Dropped(r, dist, s, alert) + FilteredOut(r, dist, s, alert) <==>
              d in r.byDevice && r.byDevice[d].shard == s
    ensures d in r.byDevice && r.byDevice[d].shard == s ==>
              var id := r.byDevice[d].id;
              && id in r.location && id in r.channel
              && var inside := dist(alert.centre, r.location[id]) <= alert.radius;
                 var room := r.channel[id].receiverOpen && |r.channel[id].queue| < 64;
              && (d in Delivered(r, dist, s, alert) <==> inside && room)
              && (d in Dropped(r, dist, s, alert) <==> inside && !room)
              && (d in FilteredOut(r, dist, s, alert) <==> !inside)
  {
    assert d in ShardOf(r.byShard, s) <==> d in r.byDevice && r.byDevice[d].shard == s;
  }

  /**
   Registering: the new connection is the device's, in the given shard and place, with
   an empty queue; the one it replaces is told to close; nobody else notices.
   */
  lemma RegisterInNumbers(r: Registry, d: DeviceId, s: Shard, loc: Location, id: ConnId)
    requires Inv(r)
    ensures var (after, c) := (Register(r, d, s, loc), Connection(r.nextId + 1, s));
            && after.byDevice == r.byDevice[d := c] && d in ShardOf(after.byShard, s) && ShardOf(after.byShard, s)[d] == c
            && after.location == r.location[c.id := loc]
            && c.id in after.channel && after.channel[c.id] == Channel([], true)
            && (id in r.channel ==>
                  && id in after.channel
                  && after.channel[id] == if Current(r, d, id) then Tried(r.channel[id], Close) else r.channel[id])
  {
    if d in r.byDevice {
      var previous := r.byDevice[d];
      TrySendInNumbers(r.channel[previous.id], Close);
    }
  }

  /**
   A control message: with room it is queued as it is and the entry stays; without, a
   closing one takes the device out and any other is lost; no other queue changes.
   */
  lemma SendControlInNumbers(r: Registry, d: DeviceId, m: ServerMessage, close: bool, id: ConnId)
    requires Inv(r) && id in r.channel
    ensures var after := SendControl(r, d, m, close);
            && id in after.channel
            && after.channel[id] == (if Current(r, d, id) then Tried(r.channel[id], Control(m, close)) else r.channel[id])
            && after.location == r.location
    ensures var after := SendControl(r, d, m, close);
            after.byDevice ==
              if d in r.byDevice && close
                 && !(r.channel[r.byDevice[d].id].receiverOpen && |r.channel[r.byDevice[d].id].queue| < 64)
              then r.byDevice - {d} else r.byDevice
  {
    if d in r.byDevice {
      TrySendInNumbers(r.channel[r.byDevice[d].id], Control(m, close));
    }
  }

  /** `close_all`: every current connection is told to close if it has room, and both maps are empty. */
  lemma CloseAllInNumbers(r: Registry, id: ConnId)
    requires Inv(r) && id in r.channel
    ensures var after := CloseAll(r);
            && after.byDevice == map[] && after.byShard == map[]
            && id in after.channel
            && after.channel[id] ==
               if exists d :: Current(r, d, id) then Tried(r.channel[id], Close) else r.channel[id]
  {
    TrySendInNumbers(r.channel[id], Close);
    if id in LiveIds(r) {
      var d :| d in r.byDevice && r.byDevice[d].id == id;
      assert Current(r, d, id);
    }
  }

  /** Deregistering: gone from both maps exactly if current, and nothing else changes. */
  lemma DeregisterInNumbers(r: Registry, d: DeviceId, id: ConnId, s: Shard)
    requires Inv(r)
    ensures var after := Deregister(r, d, id);
            && after.byDevice == (if d in r.byDevice && r.byDevice[d].id == id then r.byDevice - {d} else r.byDevice)
            && ShardOf(after.byShard, s) ==
               (if d in r.byDevice && r.byDevice[d] == Connection(id, s) then ShardOf(r.byShard, s) - {d} else ShardOf(r.byShard, s))
            && after.channel == r.channel && after.location == r.location && after.nextId == r.nextId
  {
    if Current(r, d, id) {
      assert d in ShardOf(r.byShard, r.byDevice[d].shard);
    }
  }

  /** After a move the device's connection is filtered by its new place, every other by its old one. */
  lemma {:induction false} MoveInNumbers(r: Registry, dist: Distance, d: DeviceId, loc: Location, alert: Alert, id: ConnId)
    requires Inv(r) && id in r.location
    ensures InCircle(UpdateLocation(r, d, loc), dist, alert, id) <==>
              dist(alert.centre, if Current(r, d, id) then loc else r.location[id]) <= alert.radius
    ensures UpdateLocation(r, d, loc).channel == r.channel && UpdateLocation(r, d, loc).byDevice == r.byDevice
    ensures UpdateLocation(r, d, loc).byShard == r.byShard
  {
  }
}
