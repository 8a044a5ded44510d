/**
 At-least-once delivery across connections (crates/fanout-worker/src/replay.rs): what a
 connection missed because its queue was full is replayed to the device's next one,
 for as long as the device has not acknowledged anything as new. Exactly when is
 proved here, with the device's acknowledgements driving its cursor.
 */
module Redelivery {
  import opened Options
  import opened Times
  import opened Locations
  import opened Registry
  import opened ReplayPlan
  import opened Delivery
  import CursorRuns

  const CODE := CursorRuns.RFC_3339

  // ------------------------------------------------------------------
  // What an earlier connection was offered came before a later one
  // ------------------------------------------------------------------

  /** An alert fanned out past one connection was fanned out before any later one of the device. */
  ghost predicate EarlierSeen(w: World) {
    forall p, id :: p in w.present && Reconnected(w, p.0, id) ==> p.1 in w.sessions[id].before
  }

  /** The second is a later connection of the first one's device. */
  predicate Reconnected(w: World, first: ConnId, second: ConnId) {
    && first in w.sessions && second in w.sessions && first < second
    && w.sessions[first].device == w.sessions[second].device
  }

  /** A current connection is the newest of its device. */
  lemma CurrentIsNewest(w: World, first: ConnId, second: ConnId)
    requires NetInv(w) && first in LiveIds(w.net.reg)
    ensures !Reconnected(w, first, second)
  {
    var d :| d in w.net.reg.byDevice && w.net.reg.byDevice[d].id == first;
    assert OwnSession(w, d, w.net.reg.byDevice[d]);
  }

  ghost predicate DroppedPresent(w: World) {
    w.dropped <= w.present
  }

  lemma {:induction false} ReceiveKeepsEarlierSeen(dist: Distance, w: World, i: nat)
    requires NetInv(w) && EarlierSeen(w)
    ensures EarlierSeen(ReceiveStep(dist, w, i))
  {
    var after := ReceiveStep(dist, w, i);
    forall p, id | p in after.present && Reconnected(after, p.0, id) ensures p.1 in after.sessions[id].before {
      assert Reconnected(w, p.0, id);
      if p.0 in LiveIds(w.net.reg) {
        CurrentIsNewest(w, p.0, id);
      }
    }
  }

  lemma {:induction false} ReceiveKeepsDroppedPresent(dist: Distance, w: World, i: nat)
    requires NetInv(w) && DroppedPresent(w)
    ensures DroppedPresent(ReceiveStep(dist, w, i))
  {
    var r, after := w.net.reg, ReceiveStep(dist, w, i);
    if after != w {
      var s := w.stream[i].shard;
      forall id | id in ShardIds(r, s) ensures id in LiveIds(r) {
        var d :| d in ShardOf(r.byShard, s) && ShardOf(r.byShard, s)[d].id == id;
        assert d in r.byDevice && r.byDevice[d].id == id;
      }
    }
  }

  lemma {:induction false} OpenKeepsEarlierSeen(dist: Distance, limit: nat, w: World, d: DeviceId, s: Shard, loc: Location)
    requires NetInv(w) && StreamInv(dist, limit, w) && EarlierSeen(w) && PresentKnown(w)
    ensures EarlierSeen(OpenStep(dist, w, d, s, loc))
  {
    var after := OpenStep(dist, w, d, s, loc);
    var newest := w.net.reg.nextId + 1;
    forall p, id | p in after.present && Reconnected(after, p.0, id) ensures p.1 in after.sessions[id].before {
      assert p in w.present && p.0 in w.sessions && after.sessions[p.0] == w.sessions[p.0];
      if id != newest {
        assert Reconnected(w, p.0, id);
      }
    }
  }

  lemma QuietStepKeepsEarlierSeen(w: World, after: World)
    requires EarlierSeen(w) && after.present == w.present && after.sessions.Keys == w.sessions.Keys
    requires forall id :: id in w.sessions ==> SameOrigin(w.sessions[id], after.sessions[id])
    ensures EarlierSeen(after)
  {
  }

  lemma {:induction false} StepKeepsEarlierSeen(dist: Distance, limit: nat, w: World, e: Event)
    requires NetInv(w) && StreamInv(dist, limit, w) && PresentKnown(w) && EarlierSeen(w) && DroppedPresent(w)
    ensures EarlierSeen(Step(dist, limit, w, e)) && DroppedPresent(Step(dist, limit, w, e))
  {
    if e.Receive? {
      ReceiveKeepsEarlierSeen(dist, w, e.i);
      ReceiveKeepsDroppedPresent(dist, w, e.i);
    } else {
      QuietStep(dist, limit, w, e);
      if e.Open? {
        OpenKeepsEarlierSeen(dist, limit, w, e.d, e.s, e.loc);
      } else {
        var after := Step(dist, limit, w, e);
        StepSessions(dist, limit, w, e);
        forall id | id in w.sessions ensures SameOrigin(w.sessions[id], after.sessions[id]) {
          StepKeepsSettled(dist, limit, w, e, id);
        }
        QuietStepKeepsEarlierSeen(w, after);
      }
    }
  }

  lemma {:induction false} StepKeepsPresentKnown(dist: Distance, limit: nat, w: World, e: Event)
    requires NetInv(w) && PresentKnown(w)
    ensures PresentKnown(Step(dist, limit, w, e))
  {
    if e.Receive? {
      ReceiveKeepsPresentKnown(dist, w, e.i);
    } else {
      QuietStep(dist, limit, w, e);
      StepSessions(dist, limit, w, e);
    }
  }

  lemma {:induction false} RunKeepsEarlierSeen(dist: Distance, limit: nat, es: seq<Event>)
    ensures var w := Run(dist, limit, es);
            NetInv(w) && StreamInv(dist, limit, w) && PresentKnown(w) && EarlierSeen(w) && DroppedPresent(w)
  {
    RunKeepsBasics(dist, limit, es);
    if es != [] {
      var init, e := es[..|es| - 1], es[|es| - 1];
      RunKeepsEarlierSeen(dist, limit, init);
      StepKeepsPresentKnown(dist, limit, Run(dist, limit, init), e);
      StepKeepsEarlierSeen(dist, limit, Run(dist, limit, init), e);
    }
  }

  // ------------------------------------------------------------------
  // The cursor that was read
  // ------------------------------------------------------------------

  /** No acknowledgement names an instant that could not be read back. */
  predicate ReadableAcks(es: seq<Event>) {
    forall i :: 0 <= i < |es| ==> ReadableAck(es[i])
  }

  predicate ReadableAck(e: Event) {
    e.Acknowledge? && e.a.Ack? ==> CODE.valid(e.a.ts)
  }

  /** The session's `since` is the cursor as it stood, or the five-minute window without one. */
  ghost predicate CursorRead(s: Session) {
    s.since.Some? ==>
      && s.acksThen.Some? && s.connectedAt.Some? && CursorRuns.Inv(CODE, s.acksThen.value)
      && s.since.value == (var c := s.acksThen.value.Stored(CODE);
                           if c.Some? then c.value else s.connectedAt.value - 300_000_000_000)
  }

  ghost predicate AcksInv(w: World) {
    && (forall d :: d in w.acks ==> CursorRuns.Inv(CODE, w.acks[d]))
    && (forall id :: id in w.sessions ==> CursorRead(w.sessions[id]))
  }

  lemma NoCursorIsInv()
    ensures CursorRuns.Inv(CODE, CursorRuns.NO_CURSOR)
  {
    CursorRuns.InitialIsInv(CODE, CursorRuns.NO_CURSOR);
  }

  lemma {:induction false} AcknowledgeKeepsAcksInv(w: World, d: DeviceId, a: CursorRuns.Event)
    requires AcksInv(w) && (a.Ack? ==> CODE.valid(a.ts))
    ensures AcksInv(w.(acks := w.acks[d := CursorRuns.Step(CODE, AcksOf(w, d), a)]))
  {
    NoCursorIsInv();
    AckKeepsInv(AcksOf(w, d), a);
  }

  lemma AckKeepsInv(acks: CursorRuns.World, a: CursorRuns.Event)
    requires CursorRuns.Inv(CODE, acks) && (a.Ack? ==> CODE.valid(a.ts))
    ensures CursorRuns.Inv(CODE, CursorRuns.Step(CODE, acks, a))
  {
    CursorRuns.Rfc3339IsFaithful();
    CursorRuns.StepKeepsInv(CODE, acks, a);
  }

  lemma {:induction false} AdvancedKeepsCursorRead(dist: Distance, limit: nat, w: World, s: Session, p: Progress)
    requires AcksInv(w) && CursorRead(s)
    ensures CursorRead(Advanced(dist, limit, w, s, p))
  {
    NoCursorIsInv();
  }

  lemma {:induction false} StepKeepsAcksInv(dist: Distance, limit: nat, w: World, e: Event)
    requires AcksInv(w) && ReadableAck(e)
    ensures AcksInv(Step(dist, limit, w, e))
  {
    var after := Step(dist, limit, w, e);
    if e.Acknowledge? {
      AcknowledgeKeepsAcksInv(w, e.d, e.a);
    } else if e.GetOn? || e.Open? || e.SendNext? {
      forall id | id in after.sessions ensures CursorRead(after.sessions[id]) {
        if e.GetOn? && e.id == id {
          AdvancedKeepsCursorRead(dist, limit, w, w.sessions[id], e.p);
        }
      }
    }
  }

  lemma {:induction false} RunKeepsAcksInv(dist: Distance, limit: nat, es: seq<Event>)
    requires ReadableAcks(es)
    ensures AcksInv(Run(dist, limit, es))
  {
    if es != [] {
      RunKeepsAcksInv(dist, limit, es[..|es| - 1]);
      StepKeepsAcksInv(dist, limit, Run(dist, limit, es[..|es| - 1]), es[|es| - 1]);
    }
  }

  // ------------------------------------------------------------------
  // Exactly when a missed alert is replayed
  // ------------------------------------------------------------------

  /** Among the alerts a replay can catch, it plans exactly those after the cursor. */
  lemma {:induction false} CaughtIffAfterCursor(dist: Distance, limit: nat, w: World, s: Session, i: nat)
    requires SessionInv(dist, limit, w, s) && i in s.before && Concerns(dist, w, s, i) && ReplayCanCatch(dist, limit, w, s, i)
    ensures w.stream[i].alert.value in s.fetched.value.plan <==> After(w.stream[i].alert.value, s.since.value)
  {
    var a := w.stream[i].alert.value;
    if After(a, s.since.value) {
      EarlierIsPlanned(dist, limit, w, s, i);
    }
    if a in s.fetched.value.plan {
      OnlyWantedIsPlanned(dist, Available(w, s), s.shard, s.since.value, s.loc, s.connectedAt.value, limit, a);
    }
  }

  /**
   An alert that one connection had no room for is in the plan of a later connection of
   the device, given that its replay can catch it, if and only if the cursor read then
   is before the alert.
   */
  lemma {:induction false} DroppedIsReplayedIff(dist: Distance, limit: nat, es: seq<Event>, first: ConnId, second: ConnId, i: nat)
    requires var w := Run(dist, limit, es);
             && Reconnected(w, first, second) && (first, i) in w.dropped
             && Concerns(dist, w, w.sessions[second], i) && ReplayCanCatch(dist, limit, w, w.sessions[second], i)
    ensures var w := Run(dist, limit, es);
            var s := w.sessions[second];
            i in s.before && (w.stream[i].alert.value in s.fetched.value.plan <==> After(w.stream[i].alert.value, s.since.value))
  {
    RunKeepsEarlierSeen(dist, limit, es);
    var w := Run(dist, limit, es);
    assert (first, i) in w.present;
    assert SessionInv(dist, limit, w, w.sessions[second]);
    CaughtIffAfterCursor(dist, limit, w, w.sessions[second], i);
  }

  /**
   At least once, until acknowledged: with a cursor stored, a dropped alert newer than
   everything the device has acknowledged is in its next plan. And once all cursor
   writes have landed, it is there only then: acknowledging a newer alert gives the
   dropped one up for good.
   */
  lemma {:induction false} ReplayedUntilAcknowledged(dist: Distance, limit: nat, es: seq<Event>, first: ConnId, second: ConnId, i: nat)
    requires var w := Run(dist, limit, es);
             && Reconnected(w, first, second) && (first, i) in w.dropped
             && Concerns(dist, w, w.sessions[second], i) && ReplayCanCatch(dist, limit, w, w.sessions[second], i)
    requires ReadableAcks(es)
    ensures var w := Run(dist, limit, es);
            var s := w.sessions[second];
            var a := w.stream[i].alert.value;
            && s.acksThen.Some?
            && var acks := s.acksThen.value;
            && (acks.Stored(CODE).Some? ==> acks.best.Some?)
            && (acks.Stored(CODE).Some? && Micros(a.createdAt) > acks.best.value ==> a in s.fetched.value.plan)
            && (CursorRuns.AllWritten(acks) && acks.best.Some? ==>
                  (a in s.fetched.value.plan <==> Micros(a.createdAt) > acks.best.value))
  {
    DroppedIsReplayedIff(dist, limit, es, first, second, i);
    RunKeepsAcksInv(dist, limit, es);
    var s := Run(dist, limit, es).sessions[second];
    assert CursorRead(s);
    var acks := s.acksThen.value;
    CursorRuns.StoredIsBounded(CODE, acks);
    if CursorRuns.AllWritten(acks) {
      CursorRuns.AllWrittenIsNewest(CODE, acks);
    }
  }
}
