/**
 Live fanout and replay together, over whole runs. A connecting device is registered
 for live fanout first (`handle_socket` in crates/fanout-worker/src/ws.rs), then its
 connect time is taken, its cursor is read, and the alerts stored since then are read
 from the stream, chosen and queued (`run_replay`, `replay_alerts`, `plan_replay`).
 Meanwhile alerts are stored and, after that, received and fanned out by the worker
 (`run_shard` in crates/fanout-worker/src/subscriber.rs), and acknowledgements move the
 cursor (`CursorRuns`). Nothing falls between the two paths.
 */
module Delivery {
  import opened Options
  import opened Locations
  import opened Registry
  import opened ReplayPlan
  import Connections
  import CursorRuns

  /** What was read for one replay: the part of the stream there was, and the plan. */
  datatype Fetched = Fetched(lo: nat, hi: nat, plan: seq<Alert>)

  /**
   One connection of a device, from `register` on. `before` are the stream positions
   that had already been fanned out when it was registered, `acksThen` is how the
   device's acknowledgements stood when its cursor was read, and `sent` is how many
   messages its replay has queued.
   */
  datatype Session = Session(
    device: DeviceId,
    shard: Shard,
    loc: Location,
    before: set<nat>,
    connectedAt: Option<int>,
    acksThen: Option<CursorRuns.World>,
    since: Option<int>,
    fetched: Option<Fetched>,
    sent: nat)

  /**
   `stream` is everything ever stored, of which the positions from `retained` on are
   still there. The last five fields are history: what was fanned out, which
   connections were current at that moment, which were offered the alert, which of
   those had no room for it, and what replays have queued.
   */
  datatype World = World(
    net: Connections.World,
    stream: seq<Stored>,
    retained: nat,
    acks: map<DeviceId, CursorRuns.World>,
    sessions: map<ConnId, Session>,
    fannedOut: set<nat>,
    present: set<(ConnId, nat)>,
    offered: set<(ConnId, nat)>,
    dropped: set<(ConnId, nat)>,
    handed: set<(ConnId, Outbound)>)

  /** How a connection's replay gets on, in this order. */
  datatype Progress = Stamp(now: int) | ReadCursor | Fetch

  datatype Event =
    | Store(m: Stored)
    | Discard(upTo: nat)
    | Receive(i: nat)
    | Open(d: DeviceId, s: Shard, loc: Location)
    | GetOn(id: ConnId, p: Progress)
    | SendNext(id: ConnId)
    | Acknowledge(d: DeviceId, a: CursorRuns.Event)
    | Net(e: Connections.Event)

  const START := World(Connections.START, [], 0, map[], map[], {}, {}, {}, {}, {})

  // ------------------------------------------------------------------
  // The steps
  // ------------------------------------------------------------------

  /** The worker receives a stored message and fans it out; one that does not parse is ignored. */
  function ReceiveStep(dist: Distance, w: World, i: nat): World {
    if i >= |w.stream| || w.stream[i].alert.None? then w
    else
      var r, shard, a := w.net.reg, w.stream[i].shard, w.stream[i].alert.value;
      var reached := Reached(dist, r, shard, a);
      w.(net := Connections.Step(dist, w.net, Connections.Fan(shard, a)),
         fannedOut := w.fannedOut + {i},
         present := w.present + At(LiveIds(r), i),
         offered := w.offered + At(reached, i),
         dropped := w.dropped + At(WithoutRoom(r, reached), i))
  }

  /** The connections a broadcast tries to queue the alert to. */
  function Reached(dist: Distance, r: Registry, shard: Shard, a: Alert): set<ConnId> {
    set id | id in ShardIds(r, shard) && InCircle(r, dist, a, id)
  }

  function WithoutRoom(r: Registry, ids: set<ConnId>): set<ConnId> {
    set id | id in ids && !HasRoom(r, id)
  }

  function At(ids: set<ConnId>, i: nat): set<(ConnId, nat)> {
    set id | id in ids :: (id, i)
  }

  function OpenStep(dist: Distance, w: World, d: DeviceId, s: Shard, loc: Location): World {
    var id := w.net.reg.nextId + 1;
    w.(net := Connections.Step(dist, w.net, Connections.Connect(d, s, loc)),
       sessions := w.sessions[id := Session(d, s, loc, w.fannedOut, None, None, None, None, 0)])
  }

  function AcksOf(w: World, d: DeviceId): CursorRuns.World {
    if d in w.acks then w.acks[d] else CursorRuns.NO_CURSOR
  }

  /** The cursor is read; an error ends the replay, and without a cursor five minutes are replayed. */
  function WithCursor(s: Session, acks: CursorRuns.World): Session {
    if s.connectedAt.None? || s.since.Some? || acks.Unreadable(CursorRuns.RFC_3339) then s
    else
      var stored := acks.Stored(CursorRuns.RFC_3339);
      s.(acksThen := Some(acks),
         since := Some(if stored.Some? then stored.value else s.connectedAt.value - NO_CURSOR_WINDOW))
  }

  /** The stream is read and the plan made. */
  function WithPlan(dist: Distance, limit: nat, w: World, s: Session): Session {
    if s.connectedAt.None? || s.since.None? || s.fetched.Some? || w.retained > |w.stream| then s
    else
      var plan := Plan(dist, w.stream[w.retained..], s.shard, s.since.value, s.loc, s.connectedAt.value, limit);
      s.(fetched := Some(Fetched(w.retained, |w.stream|, plan)))
  }

  function Advanced(dist: Distance, limit: nat, w: World, s: Session, p: Progress): Session {
    match p
    case Stamp(now) => if s.connectedAt.None? then s.(connectedAt := Some(now)) else s
    case ReadCursor => WithCursor(s, AcksOf(w, s.device))
    case Fetch => WithPlan(dist, limit, w, s)
  }

  function GetOnStep(dist: Distance, limit: nat, w: World, id: ConnId, p: Progress): World {
    if id !in w.sessions then w else w.(sessions := w.sessions[id := Advanced(dist, limit, w, w.sessions[id], p)])
  }

  /** Everything a replay will queue: the plan, and then how long it was. */
  function Script(s: Session): seq<Outbound>
    requires s.fetched.Some?
  {
    Queued(s.fetched.value.plan) + [ReplayDone(|s.fetched.value.plan|)]
  }

  /** The replay has something to send, still holds a sender, and there is room. */
  predicate CanSend(w: World, id: ConnId) {
    && id in w.sessions && w.sessions[id].fetched.Some? && w.sessions[id].sent < |Script(w.sessions[id])|
    && id in w.net.replaying && HasRoom(w.net.reg, id)
  }

  function SendStep(dist: Distance, w: World, id: ConnId): World {
    if !CanSend(w, id) then w
    else
      var s := w.sessions[id];
      var m := Script(s)[s.sent];
      w.(net := Connections.Step(dist, w.net, Connections.ReplaySend(id, m)),
         sessions := w.sessions[id := s.(sent := s.sent + 1)],
         handed := w.handed + {(id, m)})
  }

  /** What other events do to the connections; registering, fanning out and replaying have events of their own. */
  function NetStep(dist: Distance, w: World, e: Connections.Event): World {
    if e.Fan? || e.Connect? || e.ReplaySend? then w else w.(net := Connections.Step(dist, w.net, e))
  }

  /** One step; an event that is not possible changes nothing. */
  function Step(dist: Distance, limit: nat, w: World, e: Event): World {
    match e
    case Store(m) => w.(stream := w.stream + [m])
    case Discard(upTo) => if w.retained <= upTo <= |w.stream| then w.(retained := upTo) else w
    case Receive(i) => ReceiveStep(dist, w, i)
    case Open(d, s, loc) => OpenStep(dist, w, d, s, loc)
    case GetOn(id, p) => GetOnStep(dist, limit, w, id, p)
    case SendNext(id) => SendStep(dist, w, id)
    case Acknowledge(d, a) => w.(acks := w.acks[d := CursorRuns.Step(CursorRuns.RFC_3339, AcksOf(w, d), a)])
    case Net(ne) => NetStep(dist, w, ne)
  }

  function Run(dist: Distance, limit: nat, es: seq<Event>): World {
    if es == [] then START else Step(dist, limit, Run(dist, limit, es[..|es| - 1]), es[|es| - 1])
  }

  // ------------------------------------------------------------------
  // What a step does to the connections and to the sessions
  // ------------------------------------------------------------------

  /** The registry event a step amounts to, if any. */
  function NetEvent(w: World, e: Event): Option<Connections.Event> {
    match e
    case Receive(i) =>
      if i >= |w.stream| || w.stream[i].alert.None? then None
      else Some(Connections.Fan(w.stream[i].shard, w.stream[i].alert.value))
    case Open(d, s, loc) => Some(Connections.Connect(d, s, loc))
    case SendNext(id) =>
      if CanSend(w, id) then Some(Connections.ReplaySend(id, Script(w.sessions[id])[w.sessions[id].sent])) else None
    case Net(ne) => if ne.Fan? || ne.Connect? || ne.ReplaySend? then None else Some(ne)
    case _ => None
  }

  lemma {:induction false} StepIsNetEvent(dist: Distance, limit: nat, w: World, e: Event)
    ensures var ne := NetEvent(w, e);
            Step(dist, limit, w, e).net == if ne.None? then w.net else Connections.Step(dist, w.net, ne.value)
  {
  }

  predicate SameOrigin(s: Session, t: Session) {
    s.device == t.device && s.shard == t.shard && s.loc == t.loc && s.before == t.before
  }

  /** What was settled stays settled: a plan that was made is never changed. */
  predicate Settled(s: Session, t: Session) {
    && SameOrigin(s, t)
    && (s.connectedAt.Some? ==> t.connectedAt == s.connectedAt)
    && (s.since.Some? ==> t.since == s.since && t.acksThen == s.acksThen)
    && (s.fetched.Some? ==> t.fetched == s.fetched)
    && s.sent <= t.sent
  }

  lemma {:induction false} AdvancedStaysSettled(dist: Distance, limit: nat, w: World, s: Session, p: Progress)
    ensures Settled(s, Advanced(dist, limit, w, s, p))
  {
  }

  /** Every step leaves the other sessions alone and never takes back what a session has settled. */
  lemma {:induction false} StepKeepsSettled(dist: Distance, limit: nat, w: World, e: Event, id: ConnId)
    requires id in w.sessions && (forall i :: i in w.sessions ==> i <= w.net.reg.nextId)
    ensures id in Step(dist, limit, w, e).sessions && Settled(w.sessions[id], Step(dist, limit, w, e).sessions[id])
  {
    if e.GetOn? && e.id == id {
      AdvancedStaysSettled(dist, limit, w, w.sessions[id], e.p);
    }
  }

  /** Only opening adds a session. */
  lemma {:induction false} StepSessions(dist: Distance, limit: nat, w: World, e: Event)
    ensures Step(dist, limit, w, e).sessions.Keys == w.sessions.Keys + if e.Open? then {w.net.reg.nextId + 1} else {}
  {
  }

  /** How a session gets on, in numbers: when it connected, which cursor it read, what it planned. */
  lemma {:induction false} ProgressInNumbers(dist: Distance, limit: nat, w: World, s: Session, now: int)
    requires w.retained <= |w.stream|
    ensures s.connectedAt.None? ==> Advanced(dist, limit, w, s, Stamp(now)) == s.(connectedAt := Some(now))
    ensures var acks := AcksOf(w, s.device);
            s.connectedAt.Some? && s.since.None? && !acks.Unreadable(CursorRuns.RFC_3339) ==>
              Advanced(dist, limit, w, s, ReadCursor) ==
                s.(acksThen := Some(acks),
                   since := Some(match acks.Stored(CursorRuns.RFC_3339)
                                 case Some(cursor) => cursor
                                 case None => s.connectedAt.value - 300_000_000_000))
    ensures s.connectedAt.Some? && s.since.Some? && s.fetched.None? ==>
              Advanced(dist, limit, w, s, Fetch).fetched ==
                Some(Fetched(w.retained, |w.stream|,
                             Plan(dist, w.stream[w.retained..], s.shard, s.since.value, s.loc, s.connectedAt.value, limit)))
  {
  }

  /**
   What the histories record: an alert that is received and can be read is fanned out,
   past every connection current at that moment; a new connection starts from all that
   was fanned out before; and only sending hands a message over, the one it queues.
   */
  lemma {:induction false} HistoriesRecord(dist: Distance, limit: nat, w: World, i: nat)
    ensures i < |w.stream| && w.stream[i].alert.Some? ==>
              && Step(dist, limit, w, Receive(i)).fannedOut == w.fannedOut + {i}
              && Step(dist, limit, w, Receive(i)).present == w.present + set id | id in LiveIds(w.net.reg) :: (id, i)
    ensures forall d, s, loc :: w.net.reg.nextId + 1 in OpenStep(dist, w, d, s, loc).sessions
              && OpenStep(dist, w, d, s, loc).sessions[w.net.reg.nextId + 1].before == w.fannedOut
    ensures forall e: Event :: !e.SendNext? ==> Step(dist, limit, w, e).handed == w.handed
    ensures forall id :: CanSend(w, id) ==>
              SendStep(dist, w, id).handed == w.handed + {(id, Script(w.sessions[id])[w.sessions[id].sent])}
  {
  }

  // ------------------------------------------------------------------
  // Invariants
  // ------------------------------------------------------------------

  /** The registry is in order, and its current connections are the newest sessions of their device. */
  ghost predicate NetInv(w: World) {
    && Inv(w.net.reg)
    && (forall id :: id in w.sessions <==> 1 <= id <= w.net.reg.nextId)
    && (forall d :: d in w.net.reg.byDevice ==> OwnSession(w, d, w.net.reg.byDevice[d]))
  }

  ghost predicate OwnSession(w: World, d: DeviceId, c: Connection) {
    && c.id in w.sessions && w.sessions[c.id].device == d && w.sessions[c.id].shard == c.shard
    && (forall id :: id in w.sessions && w.sessions[id].device == d ==> id <= c.id)
  }

  ghost predicate SessionInv(dist: Distance, limit: nat, w: World, s: Session) {
    && (forall i :: i in s.before ==> i < |w.stream|)
    && (s.fetched.Some? ==>
          && Ready(w, s) && s.sent <= |Script(s)|
          && (forall i :: i in s.before ==> i < s.fetched.value.hi)
          && s.fetched.value.plan ==
             Plan(dist, Available(w, s), s.shard, s.since.value, s.loc, s.connectedAt.value, limit))
    && (s.fetched.None? ==> s.sent == 0)
  }

  /** The session's replay has read a part of the stream, its connect time and cursor known. */
  predicate Ready(w: World, s: Session) {
    && s.connectedAt.Some? && s.since.Some? && s.fetched.Some?
    && s.fetched.value.lo <= s.fetched.value.hi <= |w.stream|
  }

  /** The part of the stream that was there when the session's replay read it. */
  function Available(w: World, s: Session): seq<Stored>
    requires Ready(w, s)
  {
    w.stream[s.fetched.value.lo..s.fetched.value.hi]
  }

  /** What was fanned out was stored before, and every session's plan is what its moment allowed. */
  ghost predicate StreamInv(dist: Distance, limit: nat, w: World) {
    && w.retained <= |w.stream|
    && (forall i :: i in w.fannedOut ==> i < |w.stream|)
    && (forall p :: p in w.present ==> p.1 < |w.stream| && p.1 in w.fannedOut)
    && (forall id :: id in w.sessions ==> SessionInv(dist, limit, w, w.sessions[id]))
  }

  lemma {:induction false} OpenKeepsNetInv(dist: Distance, w: World, d: DeviceId, s: Shard, loc: Location)
    requires NetInv(w)
    ensures NetInv(OpenStep(dist, w, d, s, loc))
  {
    RegisterKeepsInv(w.net.reg, d, s, loc);
    RegisterInserts(w.net.reg, d, s, loc);
    OpenedKeepsNetInv(w, OpenStep(dist, w, d, s, loc), d, Connection(w.net.reg.nextId + 1, s));
  }

  lemma RegisterInserts(r: Registry, d: DeviceId, s: Shard, loc: Location)
    ensures var after := Register(r, d, s, loc);
            after.nextId == r.nextId + 1 && after.byDevice == r.byDevice[d := Connection(r.nextId + 1, s)]
  {
  }

  lemma OpenedKeepsNetInv(w: World, after: World, d: DeviceId, c: Connection)
    requires NetInv(w) && Inv(after.net.reg) && c.id == w.net.reg.nextId + 1 == after.net.reg.nextId
    requires after.net.reg.byDevice == w.net.reg.byDevice[d := c]
    requires c.id in after.sessions && after.sessions == w.sessions[c.id := after.sessions[c.id]]
    requires after.sessions[c.id].device == d && after.sessions[c.id].shard == c.shard
    ensures NetInv(after)
  {
    assert after.sessions.Keys == w.sessions.Keys + {c.id};
    forall e | e in after.net.reg.byDevice ensures OwnSession(after, e, after.net.reg.byDevice[e]) {
      NewSessionIsOwn(w, after, d, c, e);
    }
  }

  lemma NewSessionIsOwn(w: World, after: World, d: DeviceId, c: Connection, e: DeviceId)
    requires NetInv(w) && c.id == w.net.reg.nextId + 1 && c.id in after.sessions && after.sessions.Keys == w.sessions.Keys + {c.id}
    requires after.sessions[c.id].device == d && after.sessions[c.id].shard == c.shard
    requires forall id :: id in w.sessions ==> after.sessions[id] == w.sessions[id]
    requires e == d || e in w.net.reg.byDevice
    ensures OwnSession(after, e, if e == d then c else w.net.reg.byDevice[e])
  {
    if e != d {
      assert OwnSession(w, e, w.net.reg.byDevice[e]);
    }
  }

  /** A step that opens nothing: the connections may go, and the sessions get on. */
  lemma OtherStepKeepsNetInv(w: World, after: World)
    requires NetInv(w) && Inv(after.net.reg) && after.net.reg.nextId == w.net.reg.nextId
    requires after.sessions.Keys == w.sessions.Keys
    requires forall id :: id in w.sessions ==> SameOrigin(w.sessions[id], after.sessions[id])
    requires forall d :: d in after.net.reg.byDevice ==>
               d in w.net.reg.byDevice && after.net.reg.byDevice[d] == w.net.reg.byDevice[d]
    ensures NetInv(after)
  {
    forall d | d in after.net.reg.byDevice ensures OwnSession(after, d, after.net.reg.byDevice[d]) {
      assert OwnSession(w, d, w.net.reg.byDevice[d]);
    }
  }

  lemma {:induction false} StepKeepsNetInv(dist: Distance, limit: nat, w: World, e: Event)
    requires NetInv(w)
    ensures NetInv(Step(dist, limit, w, e))
  {
    if e.Open? {
      OpenKeepsNetInv(dist, w, e.d, e.s, e.loc);
    } else {
      var after := Step(dist, limit, w, e);
      var ne := NetEvent(w, e);
      StepIsNetEvent(dist, limit, w, e);
      if ne.Some? {
        Connections.StepKeepsInv(dist, w.net, ne.value);
        Connections.NobodyBecomesLive(dist, w.net, ne.value);
      }
      StepSessions(dist, limit, w, e);
      forall id | id in w.sessions ensures SameOrigin(w.sessions[id], after.sessions[id]) {
        StepKeepsSettled(dist, limit, w, e, id);
      }
      OtherStepKeepsNetInv(w, after);
    }
  }

  lemma SliceToTheEnd(s: seq<Stored>, from: nat)
    requires from <= |s|
    ensures s[from..|s|] == s[from..]
  {
  }

  lemma {:induction false} GrowingStreamKeepsSession(dist: Distance, limit: nat, w: World, after: World, s: Session)
    requires SessionInv(dist, limit, w, s) && w.stream <= after.stream
    ensures SessionInv(dist, limit, after, s)
  {
    if s.fetched.Some? {
      assert Available(after, s) == Available(w, s);
    }
  }

  lemma {:induction false} AdvancedKeepsSessionInv(dist: Distance, limit: nat, w: World, s: Session, p: Progress)
    requires w.retained <= |w.stream| && SessionInv(dist, limit, w, s)
    ensures SessionInv(dist, limit, w, Advanced(dist, limit, w, s, p))
  {
    if p.Fetch? {
      SliceToTheEnd(w.stream, w.retained);
    }
  }

  lemma {:induction false} StepKeepsSessionInv(dist: Distance, limit: nat, w: World, e: Event, id: ConnId)
    requires StreamInv(dist, limit, w) && id in Step(dist, limit, w, e).sessions
    ensures SessionInv(dist, limit, Step(dist, limit, w, e), Step(dist, limit, w, e).sessions[id])
  {
    var after := Step(dist, limit, w, e);
    StreamGrows(dist, limit, w, e);
    SessionAfterStep(dist, limit, w, e, id);
    GrowingStreamKeepsSession(dist, limit, w, after, after.sessions[id]);
  }

  lemma {:induction false} StreamGrows(dist: Distance, limit: nat, w: World, e: Event)
    ensures w.stream <= Step(dist, limit, w, e).stream
  {
  }

  /** What a step makes of a session is in order already before the stream grows. */
  lemma {:induction false} SessionAfterStep(dist: Distance, limit: nat, w: World, e: Event, id: ConnId)
    requires StreamInv(dist, limit, w) && id in Step(dist, limit, w, e).sessions
    ensures SessionInv(dist, limit, w, Step(dist, limit, w, e).sessions[id])
  {
    if id in w.sessions {
      assert SessionInv(dist, limit, w, w.sessions[id]);
    }
    match e {
      case GetOn(_, p) =>
        if e.id == id {
          AdvancedKeepsSessionInv(dist, limit, w, w.sessions[id], p);
        }
      case SendNext(_) => SendKeepsSessionInv(dist, limit, w, e.id, id);
      case _ =>
    }
  }

  lemma {:induction false} SendKeepsSessionInv(dist: Distance, limit: nat, w: World, sender: ConnId, id: ConnId)
    requires id in w.sessions && SessionInv(dist, limit, w, w.sessions[id])
    ensures id in SendStep(dist, w, sender).sessions && SessionInv(dist, limit, w, SendStep(dist, w, sender).sessions[id])
  {
  }

  lemma {:induction false} ReceiveKeepsPositions(dist: Distance, w: World, i: nat)
    requires forall p :: p in w.present ==> p.1 < |w.stream| && p.1 in w.fannedOut
    ensures forall p :: p in ReceiveStep(dist, w, i).present ==> p.1 < |w.stream| && p.1 in ReceiveStep(dist, w, i).fannedOut
  {
  }

  lemma {:induction false} StepKeepsStreamInv(dist: Distance, limit: nat, w: World, e: Event)
    requires StreamInv(dist, limit, w)
    ensures StreamInv(dist, limit, Step(dist, limit, w, e))
  {
    var after := Step(dist, limit, w, e);
    forall id | id in after.sessions ensures SessionInv(dist, limit, after, after.sessions[id]) {
      StepKeepsSessionInv(dist, limit, w, e, id);
    }
    if e.Receive? {
      ReceiveKeepsPositions(dist, w, e.i);
    }
  }

  lemma {:induction false} RunKeepsBasics(dist: Distance, limit: nat, es: seq<Event>)
    ensures NetInv(Run(dist, limit, es)) && StreamInv(dist, limit, Run(dist, limit, es))
  {
    if es == [] {
      EmptyKeepsInv();
    } else {
      var init, e := es[..|es| - 1], es[|es| - 1];
      RunKeepsBasics(dist, limit, init);
      StepKeepsNetInv(dist, limit, Run(dist, limit, init), e);
      StepKeepsStreamInv(dist, limit, Run(dist, limit, init), e);
    }
  }

  /** From any moment of a run to any later one, a connection's plan, once made, stays the same. */
  lemma {:induction false} MadePlansStay(dist: Distance, limit: nat, es: seq<Event>, i: nat, id: ConnId)
    requires i <= |es| && id in Run(dist, limit, es[..i]).sessions
    ensures id in Run(dist, limit, es).sessions
    ensures Settled(Run(dist, limit, es[..i]).sessions[id], Run(dist, limit, es).sessions[id])
    decreases |es|
  {
    if i == |es| {
      assert es[..i] == es;
    } else {
      var init := es[..|es| - 1];
      assert init[..i] == es[..i];
      MadePlansStay(dist, limit, init, i, id);
      RunKeepsBasics(dist, limit, init);
      StepKeepsSettled(dist, limit, Run(dist, limit, init), es[|es| - 1], id);
    }
  }

  // ------------------------------------------------------------------
  // The live path
  // ------------------------------------------------------------------

  /** Nobody moves this device. */
  predicate Unmoving(es: seq<Event>, d: DeviceId) {
    forall i :: 0 <= i < |es| ==> !Moves(es[i], d)
  }

  predicate Moves(e: Event, d: DeviceId) {
    e.Net? && e.e.Move? && e.e.d == d
  }

  /** The registry knows the device's connections where they connected from. */
  ghost predicate StillThere(w: World, d: DeviceId) {
    forall id :: id in w.sessions && w.sessions[id].device == d ==>
      id in w.net.reg.location && w.net.reg.location[id] == w.sessions[id].loc
  }

  /** Alert `i` is one this session's live path must offer. */
  predicate Concerns(dist: Distance, w: World, s: Session, i: nat) {
    i < |w.stream| && w.stream[i].shard == s.shard && w.stream[i].alert.Some? && w.stream[i].alert.value.Contains(dist, s.loc)
  }

  /** Only a move changes where a known connection is. */
  lemma {:induction false} NetStepKeepsLocations(dist: Distance, w: Connections.World, e: Connections.Event, id: ConnId)
    requires id in w.reg.location && id <= w.reg.nextId
    requires e.Move? && e.d in w.reg.byDevice ==> w.reg.byDevice[e.d].id != id
    ensures var after := Connections.Step(dist, w, e);
            id in after.reg.location && after.reg.location[id] == w.reg.location[id]
  {
  }

  lemma {:induction false} KnownPlaceStays(dist: Distance, limit: nat, w: World, e: Event, d: DeviceId, id: ConnId)
    requires NetInv(w) && StillThere(w, d) && !Moves(e, d) && id in w.sessions && w.sessions[id].device == d
    ensures var after := Step(dist, limit, w, e);
            id in after.net.reg.location && after.net.reg.location[id] == w.sessions[id].loc
  {
    StepIsNetEvent(dist, limit, w, e);
    var ne := NetEvent(w, e);
    if ne.Some? {
      if ne.value.Move? && ne.value.d in w.net.reg.byDevice {
        assert OwnSession(w, ne.value.d, w.net.reg.byDevice[ne.value.d]);
      }
      NetStepKeepsLocations(dist, w.net, ne.value, id);
    }
  }

  lemma {:induction false} StepKeepsStillThere(dist: Distance, limit: nat, w: World, e: Event, d: DeviceId)
    requires NetInv(w) && StillThere(w, d) && !Moves(e, d)
    ensures StillThere(Step(dist, limit, w, e), d)
  {
    var after := Step(dist, limit, w, e);
    StepSessions(dist, limit, w, e);
    forall id | id in after.sessions && after.sessions[id].device == d
      ensures id in after.net.reg.location && after.net.reg.location[id] == after.sessions[id].loc
    {
      if id in w.sessions {
        StepKeepsSettled(dist, limit, w, e, id);
        KnownPlaceStays(dist, limit, w, e, d, id);
      }
    }
  }

  /** A current connection in the shard, with the device inside, is reached by the broadcast. */
  lemma {:induction false} CurrentIsReached(dist: Distance, w: World, d: DeviceId, id: ConnId, i: nat)
    requires NetInv(w) && StillThere(w, d) && id in w.sessions && w.sessions[id].device == d
    requires id in LiveIds(w.net.reg) && Concerns(dist, w, w.sessions[id], i)
    ensures id in Reached(dist, w.net.reg, w.stream[i].shard, w.stream[i].alert.value)
  {
    var r := w.net.reg;
    var e :| e in r.byDevice && r.byDevice[e].id == id;
    var c := r.byDevice[e];
    assert OwnSession(w, e, c);
    assert e in ShardOf(r.byShard, c.shard);
  }

  /** Whatever was fanned out while the connection was current was offered to it. */
  ghost predicate LiveInv(dist: Distance, w: World, d: DeviceId) {
    forall id, i :: (id, i) in w.present && id in w.sessions && w.sessions[id].device == d && Concerns(dist, w, w.sessions[id], i) ==>
      (id, i) in w.offered
  }

  lemma {:induction false} ReceiveKeepsLiveInv(dist: Distance, w: World, i: nat, d: DeviceId)
    requires NetInv(w) && StillThere(w, d) && LiveInv(dist, w, d)
    ensures LiveInv(dist, ReceiveStep(dist, w, i), d)
  {
    var after := ReceiveStep(dist, w, i);
    if after != w {
      forall id, j | (id, j) in after.present && id in after.sessions && after.sessions[id].device == d
                     && Concerns(dist, after, after.sessions[id], j)
        ensures (id, j) in after.offered
      {
        if (id, j) !in w.present {
          assert j == i && id in LiveIds(w.net.reg);
          CurrentIsReached(dist, w, d, id, i);
        }
      }
    }
  }

  /** Whatever was present is a session. */
  ghost predicate PresentKnown(w: World) {
    forall p :: p in w.present ==> p.0 in w.sessions
  }

  lemma {:induction false} ReceiveKeepsPresentKnown(dist: Distance, w: World, i: nat)
    requires NetInv(w) && PresentKnown(w)
    ensures PresentKnown(ReceiveStep(dist, w, i))
  {
    var after := ReceiveStep(dist, w, i);
    forall p | p in after.present ensures p.0 in after.sessions {
      if p !in w.present {
        assert p.0 in LiveIds(w.net.reg);
        var d :| d in w.net.reg.byDevice && w.net.reg.byDevice[d].id == p.0;
        assert OwnSession(w, d, w.net.reg.byDevice[d]);
      }
    }
  }

  /** Steps that fan nothing out: the stream may grow and sessions may be opened or get on. */
  lemma {:induction false} QuietStepKeepsLiveInv(dist: Distance, limit: nat, w: World, after: World, d: DeviceId)
    requires StreamInv(dist, limit, w) && LiveInv(dist, w, d) && PresentKnown(w)
    requires after.present == w.present && after.offered == w.offered && w.stream <= after.stream
    requires forall id :: id in w.sessions ==> id in after.sessions && SameOrigin(w.sessions[id], after.sessions[id])
    ensures LiveInv(dist, after, d) && PresentKnown(after)
  {
    forall id, j | (id, j) in after.present && id in after.sessions && after.sessions[id].device == d
                   && Concerns(dist, after, after.sessions[id], j)
      ensures (id, j) in after.offered
    {
      assert (id, j) in w.present && (id, j).0 in w.sessions && (id, j).1 < |w.stream|;
      assert Concerns(dist, w, w.sessions[id], j);
    }
  }

  lemma {:induction false} QuietStep(dist: Distance, limit: nat, w: World, e: Event)
    requires !e.Receive?
    ensures var after := Step(dist, limit, w, e);
            && after.fannedOut == w.fannedOut && after.present == w.present
            && after.offered == w.offered && after.dropped == w.dropped && w.stream <= after.stream
  {
  }

  lemma {:induction false} StepKeepsLiveInv(dist: Distance, limit: nat, w: World, e: Event, d: DeviceId)
    requires NetInv(w) && StreamInv(dist, limit, w) && StillThere(w, d) && LiveInv(dist, w, d) && PresentKnown(w)
    ensures LiveInv(dist, Step(dist, limit, w, e), d) && PresentKnown(Step(dist, limit, w, e))
  {
    if e.Receive? {
      ReceiveKeepsLiveInv(dist, w, e.i, d);
      ReceiveKeepsPresentKnown(dist, w, e.i);
    } else {
      var after := Step(dist, limit, w, e);
      QuietStep(dist, limit, w, e);
      forall id | id in w.sessions ensures id in after.sessions && SameOrigin(w.sessions[id], after.sessions[id]) {
        StepKeepsSettled(dist, limit, w, e, id);
      }
      QuietStepKeepsLiveInv(dist, limit, w, after, d);
    }
  }

  /** A current connection was current at every fanout since it was registered. */
  ghost predicate MissedNone(w: World) {
    forall id, i :: id in LiveIds(w.net.reg) && id in w.sessions && i in w.fannedOut ==>
      i in w.sessions[id].before || (id, i) in w.present
  }

  lemma {:induction false} OpenKeepsMissedNone(dist: Distance, w: World, d: DeviceId, s: Shard, loc: Location)
    requires NetInv(w) && MissedNone(w)
    ensures MissedNone(OpenStep(dist, w, d, s, loc))
  {
    var after := OpenStep(dist, w, d, s, loc);
    var newest := w.net.reg.nextId + 1;
    assert after.net.reg.byDevice == w.net.reg.byDevice[d := Connection(newest, s)];
    forall id, i | id in LiveIds(after.net.reg) && id in after.sessions && i in after.fannedOut
      ensures i in after.sessions[id].before || (id, i) in after.present
    {
      if id != newest {
        assert id in LiveIds(w.net.reg) && after.sessions[id] == w.sessions[id];
      }
    }
  }

  /** Steps in which no connection becomes current and nothing is fanned out. */
  lemma QuietStepKeepsMissedNone(w: World, after: World)
    requires MissedNone(w) && LiveIds(after.net.reg) <= LiveIds(w.net.reg)
    requires after.fannedOut == w.fannedOut && after.present == w.present && after.sessions.Keys == w.sessions.Keys
    requires forall id :: id in w.sessions ==> SameOrigin(w.sessions[id], after.sessions[id])
    ensures MissedNone(after)
  {
  }

  lemma {:induction false} ReceiveKeepsMissedNone(dist: Distance, w: World, i: nat)
    requires MissedNone(w)
    ensures MissedNone(ReceiveStep(dist, w, i))
  {
    var after := ReceiveStep(dist, w, i);
    if after != w {
      Connections.NobodyBecomesLive(dist, w.net, Connections.Fan(w.stream[i].shard, w.stream[i].alert.value));
      forall id, j | id in LiveIds(after.net.reg) && id in after.sessions && j in after.fannedOut
        ensures j in after.sessions[id].before || (id, j) in after.present
      {
        assert id in LiveIds(w.net.reg);
      }
    }
  }

  lemma {:induction false} StepKeepsMissedNone(dist: Distance, limit: nat, w: World, e: Event)
    requires NetInv(w) && MissedNone(w)
    ensures MissedNone(Step(dist, limit, w, e))
  {
    if e.Receive? {
      ReceiveKeepsMissedNone(dist, w, e.i);
    } else if e.Open? {
      OpenKeepsMissedNone(dist, w, e.d, e.s, e.loc);
    } else {
      var after := Step(dist, limit, w, e);
      var ne := NetEvent(w, e);
      QuietStep(dist, limit, w, e);
      StepIsNetEvent(dist, limit, w, e);
      StepSessions(dist, limit, w, e);
      if ne.Some? {
        Connections.NobodyBecomesLive(dist, w.net, ne.value);
      }
      forall id | id in w.sessions ensures SameOrigin(w.sessions[id], after.sessions[id]) {
        StepKeepsSettled(dist, limit, w, e, id);
      }
      QuietStepKeepsMissedNone(w, after);
    }
  }

  ghost predicate AllInv(dist: Distance, limit: nat, w: World, d: DeviceId) {
    NetInv(w) && StreamInv(dist, limit, w) && StillThere(w, d) && LiveInv(dist, w, d) && MissedNone(w) && PresentKnown(w)
  }

  lemma {:induction false} RunKeepsAllInv(dist: Distance, limit: nat, es: seq<Event>, d: DeviceId)
    requires Unmoving(es, d)
    ensures AllInv(dist, limit, Run(dist, limit, es), d)
  {
    if es == [] {
      EmptyKeepsInv();
    } else {
      var init, e := es[..|es| - 1], es[|es| - 1];
      RunKeepsAllInv(dist, limit, init, d);
      var w := Run(dist, limit, init);
      StepKeepsNetInv(dist, limit, w, e);
      StepKeepsStreamInv(dist, limit, w, e);
      StepKeepsStillThere(dist, limit, w, e, d);
      StepKeepsLiveInv(dist, limit, w, e, d);
      StepKeepsMissedNone(dist, limit, w, e);
    }
  }

  // ------------------------------------------------------------------
  // No gap
  // ------------------------------------------------------------------

  /** A wanted message that lies in the window is among the wanted ones of the window. */
  lemma {:induction false} WantedInWindow(dist: Distance, stream: seq<Stored>, shard: Shard, since: int, loc: Location,
                                          connectedAt: int, i: nat)
    requires i < |stream| && Wanted(dist, stream[i], shard, since, loc, connectedAt)
    requires stream[i].serverTime >= StartTime(since)
    ensures stream[i].alert.value in AllWanted(dist, Window(stream, shard, StartTime(since)), shard, since, loc, connectedAt)
  {
    var window := Window(stream, shard, StartTime(since));
    WindowHoldsIt(stream, shard, StartTime(since), i);
    var k :| 0 <= k < |window| && window[k] == stream[i];
    WantedIsListed(dist, window, shard, since, loc, connectedAt, k);
  }

  lemma {:induction false} WindowHoldsIt(stream: seq<Stored>, shard: Shard, start: int, i: nat)
    requires i < |stream| && stream[i].shard == shard && stream[i].serverTime >= start
    ensures stream[i] in Window(stream, shard, start)
  {
    if i < |stream| - 1 {
      WindowHoldsIt(stream[..|stream| - 1], shard, start, i);
    }
  }

  lemma {:induction false} WindowHasNoMoreWanted(dist: Distance, stream: seq<Stored>, shard: Shard, start: int, since: int,
                                                 loc: Location, connectedAt: int)
    ensures |AllWanted(dist, Window(stream, shard, start), shard, since, loc, connectedAt)|
              <= |AllWanted(dist, stream, shard, since, loc, connectedAt)|
  {
    if stream != [] {
      var n := |stream| - 1;
      WindowHasNoMoreWanted(dist, stream[..n], shard, start, since, loc, connectedAt);
      var w := Window(stream[..n], shard, start);
      assert (w + [stream[n]])[..|w|] == w;
    }
  }

  /** What makes a stored message certain to be planned. */
  lemma {:induction false} StoredIsPlanned(dist: Distance, stream: seq<Stored>, shard: Shard, since: int, loc: Location,
                                           connectedAt: int, limit: nat, i: nat)
    requires i < |stream| && Wanted(dist, stream[i], shard, since, loc, connectedAt)
    requires stream[i].serverTime >= 0
    requires stream[i].serverTime >= stream[i].alert.value.createdAt - 60_000_000_000
    requires |Window(stream, shard, StartTime(since))| <= 500
    requires |AllWanted(dist, stream, shard, since, loc, connectedAt)| <= limit
    ensures stream[i].alert.value in Plan(dist, stream, shard, since, loc, connectedAt, limit)
  {
    SkewKeepsInWindow(stream[i], since);
    WantedInWindow(dist, stream, shard, since, loc, connectedAt, i);
    WindowHasNoMoreWanted(dist, stream, shard, StartTime(since), since, loc, connectedAt);
    PlanOfTheBatch(dist, stream, shard, since, loc, connectedAt, limit);
  }

  /**
   What an alert that was fanned out before the connection was registered needs to be
   caught by its replay: clocks within the tolerances, the message still retained when
   the replay reads, at most 500 stored messages in the window and at most `limit`
   wanted ones.
   */
  ghost predicate ReplayCanCatch(dist: Distance, limit: nat, w: World, s: Session, i: nat)
    requires Concerns(dist, w, s, i)
  {
    var m := w.stream[i];
    && Ready(w, s)
    && m.serverTime >= 0 && m.serverTime >= m.alert.value.createdAt - 60_000_000_000
    && m.alert.value.createdAt < s.connectedAt.value + 5_000_000_000
    && s.fetched.value.lo <= i
    && |Window(Available(w, s), s.shard, StartTime(s.since.value))| <= 500
    && |AllWanted(dist, Available(w, s), s.shard, s.since.value, s.loc, s.connectedAt.value)| <= limit
  }

  /** Every replay that has read the stream had its connect time and its cursor. */
  lemma {:induction false} FetchedIsReady(dist: Distance, limit: nat, es: seq<Event>, id: ConnId)
    requires var w := Run(dist, limit, es); id in w.sessions && w.sessions[id].fetched.Some?
    ensures Ready(Run(dist, limit, es), Run(dist, limit, es).sessions[id])
  {
    RunKeepsBasics(dist, limit, es);
    assert SessionInv(dist, limit, Run(dist, limit, es), Run(dist, limit, es).sessions[id]);
  }

  /** An alert fanned out before the registration is planned if the replay can catch it and it is after the cursor. */
  lemma {:induction false} EarlierIsPlanned(dist: Distance, limit: nat, w: World, s: Session, i: nat)
    requires SessionInv(dist, limit, w, s) && i in s.before && Concerns(dist, w, s, i) && ReplayCanCatch(dist, limit, w, s, i)
    requires After(w.stream[i].alert.value, s.since.value)
    ensures w.stream[i].alert.value in s.fetched.value.plan
  {
    var f := s.fetched.value;
    var available := Available(w, s);
    assert available[i - f.lo] == w.stream[i];
    StoredIsPlanned(dist, available, s.shard, s.since.value, s.loc, s.connectedAt.value, limit, i - f.lo);
  }

  /**
   No gap between live and replay. In any run, take a connection whose replay has read
   the stream, and an alert of its shard whose circle contains the unmoving device, that
   was created after the cursor, and that the worker fanned out before the connection was
   registered or while it was current. Then the alert was offered to the connection by
   a broadcast, or it is in its replay plan. Only an alert fanned out before the
   connection was registered needs the conditions of `ReplayCanCatch`.
   */
  lemma {:induction false} NoGapBetweenLiveAndReplay(dist: Distance, limit: nat, es: seq<Event>, id: ConnId, i: nat)
    requires var w := Run(dist, limit, es);
             && id in w.sessions && w.sessions[id].fetched.Some? && w.sessions[id].since.Some?
             && Unmoving(es, w.sessions[id].device)
             && Concerns(dist, w, w.sessions[id], i)
             && After(w.stream[i].alert.value, w.sessions[id].since.value)
             && (i in w.sessions[id].before || (id, i) in w.present)
    requires var w := Run(dist, limit, es);
             i in w.sessions[id].before ==> ReplayCanCatch(dist, limit, w, w.sessions[id], i)
    ensures var w := Run(dist, limit, es);
            (id, i) in w.offered || w.stream[i].alert.value in w.sessions[id].fetched.value.plan
  {
    var w := Run(dist, limit, es);
    var s := w.sessions[id];
    RunKeepsAllInv(dist, limit, es, s.device);
    assert SessionInv(dist, limit, w, s);
    if i in s.before {
      EarlierIsPlanned(dist, limit, w, s, i);
    }
  }

  /**
   For a connection that is still current, this covers every alert the worker has ever
   fanned out.
   */
  lemma {:induction false} CurrentConnectionMissesNothing(dist: Distance, limit: nat, es: seq<Event>, id: ConnId, i: nat)
    requires var w := Run(dist, limit, es);
             && id in LiveIds(w.net.reg) && i in w.fannedOut
             && id in w.sessions && w.sessions[id].fetched.Some? && w.sessions[id].since.Some?
             && Unmoving(es, w.sessions[id].device)
             && Concerns(dist, w, w.sessions[id], i)
             && After(w.stream[i].alert.value, w.sessions[id].since.value)
    requires var w := Run(dist, limit, es);
             i in w.sessions[id].before ==> ReplayCanCatch(dist, limit, w, w.sessions[id], i)
    ensures var w := Run(dist, limit, es);
            (id, i) in w.offered || w.stream[i].alert.value in w.sessions[id].fetched.value.plan
  {
    RunKeepsAllInv(dist, limit, es, Run(dist, limit, es).sessions[id].device);
    NoGapBetweenLiveAndReplay(dist, limit, es, id, i);
  }

  /** An offered alert is queued last, or recorded as dropped because there was no room for it. */
  lemma {:induction false} OfferedIsQueuedOrDropped(dist: Distance, w: World, i: nat, id: ConnId)
    requires NetInv(w) && (id, i) in ReceiveStep(dist, w, i).offered && (id, i) !in w.offered
    ensures i < |w.stream| && w.stream[i].alert.Some?
    ensures id in w.net.reg.channel && id in ReceiveStep(dist, w, i).net.reg.channel
    ensures var before, now := w.net.reg.channel[id], ReceiveStep(dist, w, i).net.reg.channel[id];
            if before.Room() then now.queue == before.queue + [AlertMsg(w.stream[i].alert.value)]
            else now == before && (id, i) in ReceiveStep(dist, w, i).dropped
  {
    var r, m := w.net.reg, w.stream[i];
    var d :| d in ShardOf(r.byShard, m.shard) && ShardOf(r.byShard, m.shard)[d].id == id;
    assert d in r.byDevice && r.byDevice[d].id == id;
  }

  // ------------------------------------------------------------------
  // From the plan to the queue
  // ------------------------------------------------------------------

  /** A sending step appends the next message of the script to the connection's queue. */
  lemma {:induction false} SendQueuesNext(dist: Distance, w: World, id: ConnId)
    requires CanSend(w, id)
    ensures var after := SendStep(dist, w, id);
            && id in after.net.reg.channel
            && after.net.reg.channel[id].queue ==
               w.net.reg.channel[id].queue + [Script(w.sessions[id])[w.sessions[id].sent]]
  {
    var s := w.sessions[id];
    var m := Script(s)[s.sent];
    assert !m.Closing();
  }

  /** What a replay has queued is a beginning of its script. */
  ghost predicate HandedInOrder(w: World) {
    forall id :: id in w.sessions && w.sessions[id].fetched.Some? && w.sessions[id].sent <= |Script(w.sessions[id])| ==>
      forall k :: 0 <= k < w.sessions[id].sent ==> (id, Script(w.sessions[id])[k]) in w.handed
  }

  lemma {:induction false} StepKeepsHanded(dist: Distance, limit: nat, w: World, e: Event)
    requires NetInv(w) && StreamInv(dist, limit, w) && HandedInOrder(w)
    ensures HandedInOrder(Step(dist, limit, w, e))
  {
    var after := Step(dist, limit, w, e);
    StepSessions(dist, limit, w, e);
    forall id, k | id in after.sessions && after.sessions[id].fetched.Some?
                   && after.sessions[id].sent <= |Script(after.sessions[id])| && 0 <= k < after.sessions[id].sent
      ensures (id, Script(after.sessions[id])[k]) in after.handed
    {
      if id in w.sessions {
        assert SessionInv(dist, limit, w, w.sessions[id]);
        StepKeepsSettled(dist, limit, w, e, id);
        SentOnlyBySending(dist, limit, w, e, id, k);
      }
    }
  }

  lemma {:induction false} SentOnlyBySending(dist: Distance, limit: nat, w: World, e: Event, id: ConnId, k: nat)
    requires id in w.sessions && id in Step(dist, limit, w, e).sessions && id <= w.net.reg.nextId
    requires Settled(w.sessions[id], Step(dist, limit, w, e).sessions[id])
    requires w.sessions[id].fetched.None? ==> w.sessions[id].sent == 0
    requires w.sessions[id].fetched.Some? ==>
               w.sessions[id].sent <= |Script(w.sessions[id])|
               && forall j :: 0 <= j < w.sessions[id].sent ==> (id, Script(w.sessions[id])[j]) in w.handed
    requires k < Step(dist, limit, w, e).sessions[id].sent
    ensures w.sessions[id].fetched.Some? && k < |Script(w.sessions[id])|
    ensures (id, Script(w.sessions[id])[k]) in Step(dist, limit, w, e).handed
  {
  }

  lemma {:induction false} RunKeepsHanded(dist: Distance, limit: nat, es: seq<Event>)
    ensures HandedInOrder(Run(dist, limit, es))
  {
    if es != [] {
      RunKeepsHanded(dist, limit, es[..|es| - 1]);
      RunKeepsBasics(dist, limit, es[..|es| - 1]);
      StepKeepsHanded(dist, limit, Run(dist, limit, es[..|es| - 1]), es[|es| - 1]);
    }
  }

  /** A replay that has sent everything has queued every planned alert, and then said how many there were. */
  lemma {:induction false} FinishedReplayHandedAll(dist: Distance, limit: nat, es: seq<Event>, id: ConnId)
    requires var w := Run(dist, limit, es);
             id in w.sessions && w.sessions[id].fetched.Some? && w.sessions[id].sent == |Script(w.sessions[id])|
    ensures var w := Run(dist, limit, es);
            var plan := w.sessions[id].fetched.value.plan;
            && (forall a :: a in plan ==> (id, AlertMsg(a)) in w.handed)
            && (id, ReplayDone(|plan|)) in w.handed
  {
    RunKeepsHanded(dist, limit, es);
    var w := Run(dist, limit, es);
    var plan, script := w.sessions[id].fetched.value.plan, Script(w.sessions[id]);
    assert script[|plan|] == ReplayDone(|plan|);
    forall a | a in plan ensures (id, AlertMsg(a)) in w.handed {
      var k :| 0 <= k < |plan| && plan[k] == a;
      assert script[k] == AlertMsg(a);
    }
  }

  /**
   End to end: for a current connection whose replay has finished, every alert that
   concerns the device, is after the cursor and was ever fanned out was offered live or
   queued by the replay.
   */
  lemma {:induction false} EveryAlertReachesTheQueue(dist: Distance, limit: nat, es: seq<Event>, id: ConnId, i: nat)
    requires var w := Run(dist, limit, es);
             && id in LiveIds(w.net.reg) && i in w.fannedOut
             && id in w.sessions && w.sessions[id].fetched.Some? && w.sessions[id].since.Some?
             && w.sessions[id].sent == |Script(w.sessions[id])|
             && Unmoving(es, w.sessions[id].device)
             && Concerns(dist, w, w.sessions[id], i)
             && After(w.stream[i].alert.value, w.sessions[id].since.value)
    requires var w := Run(dist, limit, es);
             i in w.sessions[id].before ==> ReplayCanCatch(dist, limit, w, w.sessions[id], i)
    ensures var w := Run(dist, limit, es);
            (id, i) in w.offered || (id, AlertMsg(w.stream[i].alert.value)) in w.handed
  {
    CurrentConnectionMissesNothing(dist, limit, es, id, i);
    FinishedReplayHandedAll(dist, limit, es, id);
  }
}
