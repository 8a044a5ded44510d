/**
 What a reconnecting device is sent: the stored alerts read from the stream
 (`replay_alerts` in crates/infra/src/nats.rs), the choice among them (`plan_replay`)
 and the sending of the chosen ones (`run_replay` in crates/fanout-worker/src/replay.rs).
 Times are in nanoseconds since 1970.
 */
module ReplayPlan {
  import opened Options
  import opened Times
  import opened Locations
  import opened Registry

  const MAX_REPLAY_FETCH: nat := 500
  const MAX_STREAM_READ: nat := 500
  const CLOCK_SKEW_TOLERANCE := 60 * SECOND
  const REPLAY_OVERLAP := 5 * SECOND
  const NO_CURSOR_WINDOW := 300 * SECOND
  const MAX_NANOS := 0x7fff_ffff_ffff_ffff

  /** A stored message: its shard, the server's time of storing, and its alert if it parses. */
  datatype Stored = Stored(shard: Shard, serverTime: int, alert: Option<Alert>)

  /** Where reading starts: the skew tolerance before the cursor, never before 1970. */
  function StartTime(since: int): int {
    var start := since - CLOCK_SKEW_TOLERANCE;
    if start < 0 || start > MAX_NANOS then 0 else start
  }

  /** The messages a consumer of the shard's subject is delivered from `start` on. */
  function Window(stream: seq<Stored>, shard: Shard, start: int): seq<Stored> {
    if stream == [] then []
    else
      var init, last := Window(stream[..|stream| - 1], shard, start), stream[|stream| - 1];
      if last.shard == shard && last.serverTime >= start then init + [last] else init
  }

  function Take<T>(s: seq<T>, n: nat): seq<T> { if |s| <= n then s else s[..n] }

  /** The newest `n`, still oldest first. */
  function LastN<T>(s: seq<T>, n: nat): seq<T> { if |s| <= n then s else s[|s| - n..] }

  /** What one fetch delivers: at most the oldest 500 messages of the window. */
  function Batch(stream: seq<Stored>, shard: Shard, start: int): seq<Stored> {
    Take(Window(stream, shard, start), MAX_REPLAY_FETCH)
  }

  predicate After(alert: Alert, since: int) {
    Micros(alert.createdAt) > Micros(since)
  }

  /** The parsed alerts created strictly after `since`, compared in microseconds. */
  function Newer(messages: seq<Stored>, since: int): seq<Alert> {
    if messages == [] then []
    else
      var init, last := Newer(messages[..|messages| - 1], since), messages[|messages| - 1];
      if last.alert.Some? && After(last.alert.value, since) then init + [last.alert.value] else init
  }

  /** `max.clamp(1, MAX_REPLAY_FETCH)`. */
  function Clamp(max: nat): (n: nat)
    ensures 1 <= n <= MAX_REPLAY_FETCH
  {
    if max < 1 then 1 else if max > MAX_REPLAY_FETCH then MAX_REPLAY_FETCH else max
  }

  /** The fetch loop: at most 500 messages, the strict cut, then truncation. */
  method ReplayAlerts(stream: seq<Stored>, shard: Shard, since: int, max: nat) returns (alerts: seq<Alert>)
    ensures alerts == Take(Newer(Batch(stream, shard, StartTime(since)), since), Clamp(max))
    ensures var newer := Newer(Batch(stream, shard, StartTime(since)), since);
            var n := if max < 1 then 1 else if max > 500 then 500 else max;
            |alerts| == (if |newer| <= n then |newer| else n) && alerts == newer[..|alerts|]
  {
    alerts := [];
    var batch := Batch(stream, shard, StartTime(since));
    var i := 0;
    while i < |batch|
      invariant 0 <= i <= |batch| && alerts == Newer(batch[..i], since)
    {
      var message := batch[i];
      assert batch[..i + 1][..i] == batch[..i];
      if message.alert.Some? && Micros(message.alert.value.createdAt) > Micros(since) {
        alerts := alerts + [message.alert.value];
      }
      i := i + 1;
    }
    assert batch[..i] == batch;
    var max := Clamp(max);
    if |alerts| > max {
      alerts := alerts[..max];
    }
  }

  /** The alerts that are inside and not created long after the connection was made. */
  function Matching(dist: Distance, alerts: seq<Alert>, loc: Location, connectedAt: int): seq<Alert> {
    if alerts == [] then []
    else
      var init, last := Matching(dist, alerts[..|alerts| - 1], loc, connectedAt), alerts[|alerts| - 1];
      if last.createdAt < connectedAt + REPLAY_OVERLAP && last.Contains(dist, loc) then init + [last] else init
  }

  /** `plan_replay`. */
  function PlanReplay(dist: Distance, alerts: seq<Alert>, loc: Location, connectedAt: int, limit: nat): seq<Alert> {
    LastN(Matching(dist, alerts, loc, connectedAt), limit)
  }

  /** What one replay reads and chooses, end to end. */
  function Plan(dist: Distance, stream: seq<Stored>, shard: Shard, since: int, loc: Location, connectedAt: int, limit: nat)
    : seq<Alert>
  {
    var batch := Batch(stream, shard, StartTime(since));
    PlanReplay(dist, Take(Newer(batch, since), Clamp(MAX_STREAM_READ)), loc, connectedAt, limit)
  }

  // ------------------------------------------------------------------
  // What the pipeline means
  // ------------------------------------------------------------------

  /** A stored message the device should be sent. */
  predicate Wanted(dist: Distance, m: Stored, shard: Shard, since: int, loc: Location, connectedAt: int) {
    && m.shard == shard && m.alert.Some?
    && After(m.alert.value, since)
    && m.alert.value.createdAt < connectedAt + 5_000_000_000
    && m.alert.value.Contains(dist, loc)
  }

  /** All such alerts of the stream, oldest first: no window, no batches. */
  function AllWanted(dist: Distance, stream: seq<Stored>, shard: Shard, since: int, loc: Location, connectedAt: int): seq<Alert> {
    if stream == [] then []
    else
      var init, last := AllWanted(dist, stream[..|stream| - 1], shard, since, loc, connectedAt), stream[|stream| - 1];
      if Wanted(dist, last, shard, since, loc, connectedAt) then init + [last.alert.value] else init
  }

  /** Every alert after the cursor was stored at most the tolerated skew before it was created. */
  ghost predicate SkewTolerated(stream: seq<Stored>, shard: Shard, since: int) {
    forall i :: 0 <= i < |stream| && stream[i].shard == shard && stream[i].alert.Some? && After(stream[i].alert.value, since)
      ==> stream[i].serverTime >= 0 && stream[i].serverTime >= stream[i].alert.value.createdAt - 60_000_000_000
  }

  /** Within the skew tolerance, an alert after the cursor lies in the window that is read. */
  lemma SkewKeepsInWindow(m: Stored, since: int)
    requires m.alert.Some? && After(m.alert.value, since) && m.serverTime >= 0
    requires m.serverTime >= m.alert.value.createdAt - 60_000_000_000
    ensures m.serverTime >= StartTime(since)
  {
  }

  lemma {:induction false} NewerIsShort(messages: seq<Stored>, since: int)
    ensures |Newer(messages, since)| <= |messages|
  {
    if messages != [] {
      NewerIsShort(messages[..|messages| - 1], since);
    }
  }

  predicate AllOfShard(messages: seq<Stored>, shard: Shard) {
    forall i :: 0 <= i < |messages| ==> messages[i].shard == shard
  }

  lemma {:induction false} WindowIsOfShard(stream: seq<Stored>, shard: Shard, start: int)
    ensures AllOfShard(Window(stream, shard, start), shard)
  {
    if stream != [] {
      WindowIsOfShard(stream[..|stream| - 1], shard, start);
    }
  }

  /** The strict cut and the circle filter, one after the other, choose the wanted alerts. */
  lemma {:induction false} TwoFiltersAreOne(dist: Distance, ms: seq<Stored>, shard: Shard, since: int, loc: Location, connectedAt: int)
    requires AllOfShard(ms, shard)
    ensures Matching(dist, Newer(ms, since), loc, connectedAt) == AllWanted(dist, ms, shard, since, loc, connectedAt)
  {
    if ms != [] {
      var n := |ms| - 1;
      TwoFiltersAreOne(dist, ms[..n], shard, since, loc, connectedAt);
      var newer := Newer(ms[..n], since);
      assert ms[n].alert.Some? ==> (newer + [ms[n].alert.value])[..|newer|] == newer;
    }
  }

  /** Within the skew tolerance the window leaves no wanted alert out. */
  lemma {:induction false} WindowKeepsWanted(dist: Distance, stream: seq<Stored>, shard: Shard, since: int, loc: Location, connectedAt: int)
    requires SkewTolerated(stream, shard, since)
    ensures AllWanted(dist, Window(stream, shard, StartTime(since)), shard, since, loc, connectedAt)
              == AllWanted(dist, stream, shard, since, loc, connectedAt)
  {
    if stream != [] {
      var n := |stream| - 1;
      WindowKeepsWanted(dist, stream[..n], shard, since, loc, connectedAt);
      var w, last := Window(stream[..n], shard, StartTime(since)), stream[n];
      assert (w + [last])[..|w|] == w;
      if Wanted(dist, last, shard, since, loc, connectedAt) {
        SkewKeepsInWindow(last, since);
      }
    }
  }

  /** `plan` is the end of `all`, as long as the limit allows. */
  predicate NewestOf(plan: seq<Alert>, all: seq<Alert>, limit: nat) {
    && |plan| == (if |all| <= limit then |all| else limit)
    && plan == all[|all| - |plan|..]
  }

  /** In every case the plan is the newest `limit` wanted alerts of the fetched batch, oldest first. */
  lemma {:induction false} PlanOfTheBatch(dist: Distance, stream: seq<Stored>, shard: Shard, since: int, loc: Location,
                                          connectedAt: int, limit: nat)
    ensures NewestOf(Plan(dist, stream, shard, since, loc, connectedAt, limit),
                     AllWanted(dist, Batch(stream, shard, StartTime(since)), shard, since, loc, connectedAt), limit)
  {
    var batch := Batch(stream, shard, StartTime(since));
    NewerIsShort(batch, since);
    WindowIsOfShard(stream, shard, StartTime(since));
    TwoFiltersAreOne(dist, batch, shard, since, loc, connectedAt);
  }

  /**
   The replay pipeline equals its simple meaning: with at most 500 messages in the
   window and the clocks within tolerance, it plans exactly the newest `limit` stored
   alerts after the cursor, before connect + 5 s and containing the device.
   */
  lemma {:induction false} PlanIsNewestWanted(dist: Distance, stream: seq<Stored>, shard: Shard, since: int, loc: Location,
                                              connectedAt: int, limit: nat)
    requires SkewTolerated(stream, shard, since)
    requires |Window(stream, shard, StartTime(since))| <= 500
    ensures NewestOf(Plan(dist, stream, shard, since, loc, connectedAt, limit),
                     AllWanted(dist, stream, shard, since, loc, connectedAt), limit)
  {
    PlanOfTheBatch(dist, stream, shard, since, loc, connectedAt, limit);
    WindowKeepsWanted(dist, stream, shard, since, loc, connectedAt);
  }

  lemma {:induction false} WantedByParts(dist: Distance, a: seq<Stored>, b: seq<Stored>, shard: Shard, since: int, loc: Location,
                                         connectedAt: int)
    ensures AllWanted(dist, a + b, shard, since, loc, connectedAt)
              == AllWanted(dist, a, shard, since, loc, connectedAt) + AllWanted(dist, b, shard, since, loc, connectedAt)
  {
    if b == [] {
      assert a + b == a;
    } else {
      assert (a + b)[..|a + b| - 1] == a + b[..|b| - 1];
      WantedByParts(dist, a, b[..|b| - 1], shard, since, loc, connectedAt);
    }
  }

  /** The end of a list either reaches back to an item or lies wholly behind it. */
  lemma EndReachesOrLiesBehind(front: seq<Alert>, a: Alert, back: seq<Alert>, n: nat)
    requires n <= |front + [a] + back|
    ensures var all := front + [a] + back;
            a in all[|all| - n..] || (n <= |back| && all[|all| - n..] == back[|back| - n..])
  {
    var all := front + [a] + back;
    if n > |back| {
      var end := all[|all| - n..];
      assert end[|front| - (|all| - n)] == a;
    }
  }

  /**
   What is left out is older: if a wanted message that was read is not planned, then
   every planned alert comes from a wanted message stored after it.
   */
  lemma {:induction false} LeftOutIsOlder(dist: Distance, stream: seq<Stored>, shard: Shard, since: int, loc: Location,
                                          connectedAt: int, limit: nat, j: nat, a: Alert)
    requires var batch := Batch(stream, shard, StartTime(since));
             && j < |batch| && Wanted(dist, batch[j], shard, since, loc, connectedAt)
             && batch[j].alert.value !in Plan(dist, stream, shard, since, loc, connectedAt, limit)
    requires a in Plan(dist, stream, shard, since, loc, connectedAt, limit)
    ensures var batch := Batch(stream, shard, StartTime(since));
            exists k :: j < k < |batch| && batch[k].alert == Some(a) && Wanted(dist, batch[k], shard, since, loc, connectedAt)
  {
    var batch := Batch(stream, shard, StartTime(since));
    var plan := Plan(dist, stream, shard, since, loc, connectedAt, limit);
    var front, rest := batch[..j], batch[j + 1..];
    assert batch == front + [batch[j]] + rest;
    WantedByParts(dist, front + [batch[j]], rest, shard, since, loc, connectedAt);
    AllWantedOfLonger(dist, front, batch[j], shard, since, loc, connectedAt);
    var older, newer := AllWanted(dist, front, shard, since, loc, connectedAt), AllWanted(dist, rest, shard, since, loc, connectedAt);
    PlanOfTheBatch(dist, stream, shard, since, loc, connectedAt, limit);
    EndReachesOrLiesBehind(older, batch[j].alert.value, newer, |plan|);
    assert a in newer;
    ListedLater(dist, batch, j, shard, since, loc, connectedAt, a);
  }

  lemma {:induction false} ListedLater(dist: Distance, ms: seq<Stored>, j: nat, shard: Shard, since: int, loc: Location,
                                       connectedAt: int, a: Alert)
    requires j < |ms| && a in AllWanted(dist, ms[j + 1..], shard, since, loc, connectedAt)
    ensures exists k :: j < k < |ms| && ms[k].alert == Some(a) && Wanted(dist, ms[k], shard, since, loc, connectedAt)
  {
    var rest := ms[j + 1..];
    ListedIsWanted(dist, rest, shard, since, loc, connectedAt, a);
    var m :| m in rest && m.alert == Some(a) && Wanted(dist, m, shard, since, loc, connectedAt);
    var i :| 0 <= i < |rest| && rest[i] == m;
    assert ms[j + 1 + i] == m;
  }

  /** What it takes to be planned, in numbers of nanoseconds. */
  lemma {:induction false} PlannedInNumbers(dist: Distance, stream: seq<Stored>, shard: Shard, since: int, loc: Location,
                                            connectedAt: int, limit: nat, a: Alert)
    requires a in Plan(dist, stream, shard, since, loc, connectedAt, limit)
    ensures a.createdAt / 1000 > since / 1000
    ensures a.createdAt < connectedAt + 5_000_000_000
    ensures dist(a.centre, loc) <= a.radius
    ensures exists m :: m in stream && m.alert == Some(a) && m.shard == shard
                        && (since - 60_000_000_000 >= 0 && since - 60_000_000_000 <= MAX_NANOS ==> m.serverTime >= since - 60_000_000_000)
  {
    PlanOfTheBatch(dist, stream, shard, since, loc, connectedAt, limit);
    var batch := Batch(stream, shard, StartTime(since));
    ListedIsWanted(dist, batch, shard, since, loc, connectedAt, a);
    var m :| m in batch && m.alert == Some(a) && Wanted(dist, m, shard, since, loc, connectedAt);
    assert m in Window(stream, shard, StartTime(since));
    WindowIsOfStream(stream, shard, StartTime(since), m);
    WindowStartsThere(stream, shard, StartTime(since), m);
  }

  lemma {:induction false} WindowStartsThere(stream: seq<Stored>, shard: Shard, start: int, m: Stored)
    requires m in Window(stream, shard, start)
    ensures m.serverTime >= start
  {
    var n := |stream| - 1;
    if m in Window(stream[..n], shard, start) {
      WindowStartsThere(stream[..n], shard, start, m);
    }
  }

  // ------------------------------------------------------------------
  // Exactly when nothing wanted is left out
  // ------------------------------------------------------------------

  /** The fetch delivers message `i`: it lies in the window, and fewer than 500 do so before it. */
  predicate Fetches(stream: seq<Stored>, shard: Shard, start: int, i: nat)
    requires i < |stream|
  {
    stream[i].shard == shard && stream[i].serverTime >= start && |Window(stream[..i], shard, start)| < 500
  }

  ghost predicate FetchesAllWanted(dist: Distance, stream: seq<Stored>, shard: Shard, since: int, loc: Location, connectedAt: int) {
    forall i :: 0 <= i < |stream| && Wanted(dist, stream[i], shard, since, loc, connectedAt) ==>
      Fetches(stream, shard, StartTime(since), i)
  }

  lemma BatchOfLonger(stream: seq<Stored>, shard: Shard, start: int)
    requires stream != []
    ensures var n := |stream| - 1;
            Batch(stream, shard, start) ==
              Batch(stream[..n], shard, start) + if Fetches(stream, shard, start, n) then [stream[n]] else []
  {
    var w := Window(stream[..|stream| - 1], shard, start);
    assert (w + [stream[|stream| - 1]])[..|w|] == w;
  }

  lemma {:induction false} FetchesAllOfLonger(dist: Distance, stream: seq<Stored>, shard: Shard, since: int, loc: Location,
                                              connectedAt: int)
    requires stream != []
    ensures var n := |stream| - 1;
            FetchesAllWanted(dist, stream, shard, since, loc, connectedAt) <==>
              && FetchesAllWanted(dist, stream[..n], shard, since, loc, connectedAt)
              && (Wanted(dist, stream[n], shard, since, loc, connectedAt) ==> Fetches(stream, shard, StartTime(since), n))
  {
    var n := |stream| - 1;
    forall i | 0 <= i < n
      ensures Fetches(stream, shard, StartTime(since), i) <==> Fetches(stream[..n], shard, StartTime(since), i)
    {
      assert stream[..n][..i] == stream[..i] && stream[..n][i] == stream[i];
    }
  }

  lemma {:induction false} AllWantedOfLonger(dist: Distance, ms: seq<Stored>, m: Stored, shard: Shard, since: int, loc: Location,
                                             connectedAt: int)
    ensures AllWanted(dist, ms + [m], shard, since, loc, connectedAt) ==
              AllWanted(dist, ms, shard, since, loc, connectedAt)
              + if Wanted(dist, m, shard, since, loc, connectedAt) then [m.alert.value] else []
  {
    assert (ms + [m])[..|ms|] == ms;
  }

  /** The batch holds no more wanted alerts than the stream, and all of them exactly if all are fetched. */
  lemma {:induction false} BatchHoldsWantedIff(dist: Distance, stream: seq<Stored>, shard: Shard, since: int, loc: Location,
                                               connectedAt: int)
    ensures var fetched := AllWanted(dist, Batch(stream, shard, StartTime(since)), shard, since, loc, connectedAt);
            var all := AllWanted(dist, stream, shard, since, loc, connectedAt);
            && |fetched| <= |all|
            && (FetchesAllWanted(dist, stream, shard, since, loc, connectedAt) ==> fetched == all)
            && (!FetchesAllWanted(dist, stream, shard, since, loc, connectedAt) ==> |fetched| < |all|)
  {
    if stream != [] {
      var n := |stream| - 1;
      var start := StartTime(since);
      BatchHoldsWantedIff(dist, stream[..n], shard, since, loc, connectedAt);
      BatchOfLonger(stream, shard, start);
      FetchesAllOfLonger(dist, stream, shard, since, loc, connectedAt);
      AllWantedOfLonger(dist, stream[..n], stream[n], shard, since, loc, connectedAt);
      AllWantedOfLonger(dist, Batch(stream[..n], shard, start), stream[n], shard, since, loc, connectedAt);
      assert stream[..n] + [stream[n]] == stream;
      assert !Fetches(stream, shard, start, n) ==> Batch(stream, shard, start) == Batch(stream[..n], shard, start);
    }
  }

  /**
   The plan is complete, for every stream, if and only if at most `limit` stored alerts
   are wanted and each of them is among the first 500 messages of the window.
   */
  lemma {:induction false} PlanIsCompleteIff(dist: Distance, stream: seq<Stored>, shard: Shard, since: int, loc: Location,
                                             connectedAt: int, limit: nat)
    ensures Plan(dist, stream, shard, since, loc, connectedAt, limit) == AllWanted(dist, stream, shard, since, loc, connectedAt)
            <==> && |AllWanted(dist, stream, shard, since, loc, connectedAt)| <= limit
                 && FetchesAllWanted(dist, stream, shard, since, loc, connectedAt)
  {
    PlanOfTheBatch(dist, stream, shard, since, loc, connectedAt, limit);
    BatchHoldsWantedIff(dist, stream, shard, since, loc, connectedAt);
  }

  const SOMEWHERE := Location(0.0, 0.0)

  /** An alert created just after a cursor at `SECOND * 3600`, containing everything. */
  const LATE_ALERT := Alert(1, SOMEWHERE, 1.0, 3600 * SECOND + 1000)

  /** 500 messages that do not parse, and then one that is wanted: it is not planned. */
  const CROWDED := seq(501, i => Stored("tkrt", 3600 * SECOND, if i == 500 then Some(LATE_ALERT) else None))

  lemma {:induction false} CrowdFillsTheWindow(k: nat)
    requires k <= |CROWDED|
    ensures Window(CROWDED[..k], "tkrt", StartTime(3600 * SECOND)) == CROWDED[..k]
  {
    if k > 0 {
      CrowdFillsTheWindow(k - 1);
      assert CROWDED[..k][..k - 1] == CROWDED[..k - 1];
      assert CROWDED[..k - 1] + [CROWDED[k - 1]] == CROWDED[..k];
    }
  }

  lemma {:induction false} NothingWantedWithoutAlerts(dist: Distance, ms: seq<Stored>, shard: Shard, since: int, loc: Location, connectedAt: int)
    requires forall i :: 0 <= i < |ms| ==> ms[i].alert.None?
    ensures AllWanted(dist, ms, shard, since, loc, connectedAt) == []
  {
    if ms != [] {
      NothingWantedWithoutAlerts(dist, ms[..|ms| - 1], shard, since, loc, connectedAt);
    }
  }

  /** A wanted alert beyond the first 500 messages of the window is lost, whatever the limit. */
  lemma {:induction false} CrowdHidesAnAlert(dist: Distance, limit: nat)
    requires LATE_ALERT.Contains(dist, SOMEWHERE)
    ensures Wanted(dist, CROWDED[500], "tkrt", 3600 * SECOND, SOMEWHERE, 3600 * SECOND)
    ensures CROWDED[500].alert.value !in Plan(dist, CROWDED, "tkrt", 3600 * SECOND, SOMEWHERE, 3600 * SECOND, limit)
  {
    CrowdFillsTheWindow(501);
    assert CROWDED[..501] == CROWDED;
    PlanOfTheBatch(dist, CROWDED, "tkrt", 3600 * SECOND, SOMEWHERE, 3600 * SECOND, limit);
    NothingWantedWithoutAlerts(dist, CROWDED[..500], "tkrt", 3600 * SECOND, SOMEWHERE, 3600 * SECOND);
  }

  /** Stored 61 seconds before its creation time: outside the window, and so lost. */
  const EARLY := [Stored("tkrt", 3539 * SECOND, Some(LATE_ALERT))]

  lemma {:induction false} SkewHidesAnAlert(dist: Distance, limit: nat)
    requires LATE_ALERT.Contains(dist, SOMEWHERE)
    ensures Wanted(dist, EARLY[0], "tkrt", 3600 * SECOND, SOMEWHERE, 3600 * SECOND)
    ensures EARLY[0].alert.value !in Plan(dist, EARLY, "tkrt", 3600 * SECOND, SOMEWHERE, 3600 * SECOND, limit)
  {
    PlanOfTheBatch(dist, EARLY, "tkrt", 3600 * SECOND, SOMEWHERE, 3600 * SECOND, limit);
    assert EARLY[..0] == [];
    assert Window(EARLY, "tkrt", StartTime(3600 * SECOND)) == [];
    NothingWantedWithoutAlerts(dist, [], "tkrt", 3600 * SECOND, SOMEWHERE, 3600 * SECOND);
  }

  lemma {:induction false} WantedIsListed(dist: Distance, stream: seq<Stored>, shard: Shard, since: int, loc: Location,
                                          connectedAt: int, i: nat)
    requires i < |stream| && Wanted(dist, stream[i], shard, since, loc, connectedAt)
    ensures stream[i].alert.value in AllWanted(dist, stream, shard, since, loc, connectedAt)
  {
    if i < |stream| - 1 {
      WantedIsListed(dist, stream[..|stream| - 1], shard, since, loc, connectedAt, i);
    }
  }

  lemma {:induction false} ListedIsWanted(dist: Distance, ms: seq<Stored>, shard: Shard, since: int, loc: Location,
                                          connectedAt: int, a: Alert)
    requires a in AllWanted(dist, ms, shard, since, loc, connectedAt)
    ensures exists m :: m in ms && m.alert == Some(a) && Wanted(dist, m, shard, since, loc, connectedAt)
  {
    var n := |ms| - 1;
    if a in AllWanted(dist, ms[..n], shard, since, loc, connectedAt) {
      ListedIsWanted(dist, ms[..n], shard, since, loc, connectedAt, a);
      var m :| m in ms[..n] && m.alert == Some(a) && Wanted(dist, m, shard, since, loc, connectedAt);
      assert m in ms;
    } else {
      assert ms[n] in ms && ms[n].alert == Some(a);
    }
  }

  lemma {:induction false} WindowIsOfStream(stream: seq<Stored>, shard: Shard, start: int, m: Stored)
    requires m in Window(stream, shard, start)
    ensures m in stream
  {
    var n := |stream| - 1;
    if m in Window(stream[..n], shard, start) {
      WindowIsOfStream(stream[..n], shard, start, m);
    }
  }

  /**
   Whatever the stream holds, only stored alerts of the shard are planned, at most
   `limit`, and none at or before the cursor, too late or with the device outside.
   */
  lemma {:induction false} OnlyWantedIsPlanned(dist: Distance, stream: seq<Stored>, shard: Shard, since: int, loc: Location,
                                               connectedAt: int, limit: nat, a: Alert)
    requires a in Plan(dist, stream, shard, since, loc, connectedAt, limit)
    ensures exists m :: m in stream && m.alert == Some(a) && Wanted(dist, m, shard, since, loc, connectedAt)
    ensures |Plan(dist, stream, shard, since, loc, connectedAt, limit)| <= limit
  {
    var batch := Batch(stream, shard, StartTime(since));
    PlanOfTheBatch(dist, stream, shard, since, loc, connectedAt, limit);
    assert a in AllWanted(dist, batch, shard, since, loc, connectedAt);
    ListedIsWanted(dist, batch, shard, since, loc, connectedAt, a);
    var m :| m in batch && m.alert == Some(a) && Wanted(dist, m, shard, since, loc, connectedAt);
    assert m in Window(stream, shard, StartTime(since));
    WindowIsOfStream(stream, shard, StartTime(since), m);
  }

  // ------------------------------------------------------------------
  // Queueing the plan
  // ------------------------------------------------------------------

  function Queued(alerts: seq<Alert>): seq<Outbound> {
    seq(|alerts|, i requires 0 <= i < |alerts| => AlertMsg(alerts[i]))
  }

  function ReplayDone(n: nat): Outbound { Control(ReplayComplete(n), false) }

  /**
   The sending loop: each alert waits for room and may fail (`accepts`), which ends it;
   after the last one the device is told how many there were.
   */
  method RunReplay(plan: seq<Alert>, accepts: nat -> bool) returns (sent: seq<Outbound>, replayed: nat)
    ensures replayed <= |plan| && replayed <= |sent| && sent[..replayed] == Queued(plan[..replayed])
    ensures (forall k: nat :: k < |plan| ==> accepts(k)) <==> replayed == |plan|
    ensures replayed < |plan| ==> |sent| == replayed && !accepts(replayed)
    ensures replayed == |plan| ==> sent == Queued(plan) + if accepts(|plan|) then [ReplayDone(|plan|)] else []
  {
    sent, replayed := [], 0;
    while replayed < |plan|
      invariant 0 <= replayed <= |plan| && sent == Queued(plan[..replayed])
      invariant forall k: nat :: k < replayed ==> accepts(k)
    {
      if !accepts(replayed) {
        return;
      }
      sent := sent + [AlertMsg(plan[replayed])];
      replayed := replayed + 1;
    }
    assert plan[..replayed] == plan;
    if accepts(replayed) {
      sent := sent + [ReplayDone(replayed)];
    }
  }
}
