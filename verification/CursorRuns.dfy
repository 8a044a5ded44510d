/**
 One device's replay cursor over whole runs: any number of connections, each with its
 own batcher, cursor writes that arrive late, out of order or never, and a Redis key
 that expires (crates/fanout-worker/src/ws.rs, crates/infra/src/redis.rs).
 */
module CursorRuns {
  import opened Options
  import opened Times
  import opened Texts
  import opened CursorText
  import opened EarlyCursors
  import opened AckBatching

  /** `ACK_CURSOR_TTL_SECS`, in the milliseconds of the Redis clock. */
  const CURSOR_TTL := 7 * 24 * 3600 * 1000

  datatype Key = Key(text: string, expiresAt: int)

  /** `ADVANCE_LUA`: replace a missing or smaller text, and renew the expiry either way. */
  function AdvanceLua(key: Option<Key>, now: int, text: string): (r: (Key, bool))
    ensures r.0.expiresAt == now + CURSOR_TTL
  {
    if key.None? || now >= key.value.expiresAt || TextLess(key.value.text, text)
    then (Key(text, now + CURSOR_TTL), true)
    else (Key(key.value.text, now + CURSOR_TTL), false)
  }

  /** The script in numbers: no live text gives way to any, a live one to a greater; either way a week is granted. */
  lemma AdvanceInNumbers(key: Option<Key>, now: int, text: string)
    ensures var (after, moved) := AdvanceLua(key, now, text);
            && after.expiresAt == now + 604_800_000
            && (key.None? || key.value.expiresAt <= now ==> moved && after.text == text)
            && (key.Some? && now < key.value.expiresAt ==>
                  (moved <==> TextLess(key.value.text, text)) && after.text == if moved then text else key.value.text)
  {
  }

  function Max(a: int, b: int): int { if a < b then b else a }

  /** How instants are written as text, and which instants can be written. */
  datatype Coding = Coding(valid: int -> bool, format: int -> string, parse: string -> Option<int>)

  /** The cursor coding of the program: RFC 3339 with microseconds; the years 0000 to 9999 can be read back. */
  const RFC_3339 := Coding(
    nanos => InRange(nanos),
    nanos => if Writable(nanos) then FormatSigned(nanos) else "",
    text => ParseCursor(text))

  /** Everything the runs below need of a coding. */
  ghost predicate Faithful(code: Coding) {
    && (forall a :: code.valid(a) ==>
          && code.parse(code.format(a)) == Some(Micros(a) * 1000)
          && code.valid(Micros(a) * 1000)
          && code.format(Micros(a) * 1000) == code.format(a))
    && (forall a, b :: code.valid(a) && code.valid(b) ==>
          (TextLess(code.format(a), code.format(b)) <==> Micros(a) < Micros(b)))
  }

  lemma CutAgain(nanos: int)
    ensures Micros(Micros(nanos) * 1000) == Micros(nanos)
  {
  }

  lemma Rfc3339IsFaithful()
    ensures Faithful(RFC_3339)
  {
    forall a | RFC_3339.valid(a)
      ensures RFC_3339.parse(RFC_3339.format(a)) == Some(Micros(a) * 1000)
      ensures RFC_3339.valid(Micros(a) * 1000)
      ensures RFC_3339.format(Micros(a) * 1000) == RFC_3339.format(a)
    {
      CursorRoundTrip(a);
      CutAgain(a);
    }
    forall a, b | RFC_3339.valid(a) && RFC_3339.valid(b)
      ensures TextLess(RFC_3339.format(a), RFC_3339.format(b)) <==> Micros(a) < Micros(b)
    {
      StringOrderIsTimeOrder(a, b);
    }
  }

  /** On written cursors the script is a numeric maximum. */
  lemma AdvanceIsMaximum(code: Coding, a: int, b: int, now: int, expiresAt: int)
    requires Faithful(code) && code.valid(a) && code.valid(b) && now < expiresAt
    ensures var r := AdvanceLua(Some(Key(code.format(a), expiresAt)), now, code.format(b));
            && r.0.text == code.format(if Micros(a) < Micros(b) then b else a)
            && r.1 == (Micros(a) < Micros(b))
            && code.parse(r.0.text) == Some(Max(Micros(a), Micros(b)) * 1000)
  {
  }

  /**
   With early years the script is a numeric maximum if and only if the two instants are
   not early ones of different years.
   */
  lemma AdvanceIsMaximumIff(a: int, b: int, now: int, expiresAt: int)
    requires Writable(a) && Writable(b) && now < expiresAt
    ensures AdvanceLua(Some(Key(FormatSigned(a), expiresAt)), now, FormatSigned(b)).0.text
              == FormatSigned(if Micros(a) < Micros(b) then b else a)
            <==> !Reversed(a, b)
  {
    TextOrderIsTimeOrderIff(a, b);
    TextOrderIsTotal(FormatSigned(a), FormatSigned(b));
    if Reversed(a, b) {
      EarlyIsNotInRange(a);
      EarlyIsNotInRange(b);
      EarlyTextOrder(a, b);
      EarlyTextOrder(b, a);
    }
  }

  /** The text left by a write can be read back if and only if the old or the new one could. */
  lemma AdvanceReadableIff(a: int, b: int, now: int, expiresAt: int)
    requires Writable(a) && Writable(b) && now < expiresAt
    ensures ParseCursor(AdvanceLua(Some(Key(FormatSigned(a), expiresAt)), now, FormatSigned(b)).0.text).Some?
            <==> InRange(a) || InRange(b)
  {
    ReadableIffInRange(a);
    ReadableIffInRange(b);
    if InRange(a) && !InRange(b) {
      EarlyTextIsLess(b, a);
    } else if InRange(b) && !InRange(a) {
      EarlyTextIsLess(a, b);
    }
  }

  lemma ReadableIffInRange(a: int)
    requires Writable(a)
    ensures ParseCursor(FormatSigned(a)).Some? <==> InRange(a)
  {
    if InRange(a) {
      CursorRoundTrip(a);
    } else {
      EarlyIsUnreadable(a);
    }
  }

  type ConnId = nat

  datatype Event =
    | Open(conn: ConnId)
    | Ack(conn: ConnId, ts: int, wallNow: int, now: int)
    | Flush(conn: ConnId)   // `take_pending`; an acknowledgement may still come after it
    | Land(write: int)
    | Lose(write: int)
    | Elapse(ms: nat)

  /**
   `open` are the batchers of the connections, `inFlight` the cursor values on
   their way to Redis. The rest is history: the newest initial or accepted value in
   microseconds, each connection's acknowledgement-driven write times, and whether
   a write was ever lost or the key ever lapsed.
   */
  datatype World = World(
    open: map<ConnId, Batcher>,
    inFlight: multiset<int>,
    key: Option<Key>,
    clock: int,
    best: Option<int>,
    writeTimes: map<ConnId, seq<int>>,
    lost: bool,
    lapsed: bool)
  {
    /** What `AckCursorStore::get` returns now, if it succeeds. */
    function Stored(code: Coding): Option<int> {
      if key.Some? && clock < key.value.expiresAt then code.parse(key.value.text) else None
    }

    /** `AckCursorStore::get` fails: there is a text, but not one it can read. */
    predicate Unreadable(code: Coding) {
      key.Some? && clock < key.value.expiresAt && code.parse(key.value.text).None?
    }
  }

  function Raise(best: Option<int>, micros: int): Option<int> {
    Some(if best.Some? then Max(best.value, micros) else micros)
  }

  function AckStep(w: World, conn: ConnId, ts: int, wallNow: int, now: int): World
    requires conn in w.open && conn in w.writeTimes
  {
    var (b, outcome) := Offer(w.open[conn], ts, wallNow, now);
    var w1 := w.(open := w.open[conn := b]);
    match outcome
    case Ignored => w
    case Buffered => w1.(best := Raise(w.best, Micros(ts)))
    case Write(v) =>
      w1.(best := Raise(w.best, Micros(ts)), inFlight := w.inFlight + multiset{v},
          writeTimes := w.writeTimes[conn := w.writeTimes[conn] + [now]])
  }

  /** One step; an event that does not apply changes nothing. */
  function Step(code: Coding, w: World, e: Event): World {
    match e
    case Open(conn) =>
      if conn in w.writeTimes then w
      else w.(open := w.open[conn := NewBatcher(ACK_MIN_INTERVAL)], writeTimes := w.writeTimes[conn := []])
    case Ack(conn, ts, wallNow, now) =>
      if conn in w.open && conn in w.writeTimes then AckStep(w, conn, ts, wallNow, now) else w
    case Flush(conn) =>
      if conn !in w.open then w
      else
        var pending := w.open[conn].pending;
        w.(open := w.open[conn := w.open[conn].(pending := None)],
           inFlight := if pending.Some? then w.inFlight + multiset{pending.value} else w.inFlight)
    case Land(v) =>
      if v !in w.inFlight then w
      else w.(inFlight := w.inFlight - multiset{v}, key := Some(AdvanceLua(w.key, w.clock, code.format(v)).0))
    case Lose(v) =>
      if v !in w.inFlight then w else w.(inFlight := w.inFlight - multiset{v}, lost := true)
    case Elapse(ms) =>
      var clock := w.clock + ms;
      w.(clock := clock,
         lapsed := w.lapsed || (w.key.Some? && w.clock < w.key.value.expiresAt <= clock))
  }

  function Run(code: Coding, w: World, es: seq<Event>): World {
    if es == [] then w else Step(code, Run(code, w, es[..|es| - 1]), es[|es| - 1])
  }

  /**
   What the histories record: the newest value rises to every accepted acknowledgement,
   a write time is noted exactly when one is written, a write is lost only by losing it,
   and the key lapses only when time passes its expiry.
   */
  lemma HistoriesRecord(code: Coding, w: World, e: Event)
    requires w.open.Keys <= w.writeTimes.Keys
    ensures var after := Step(code, w, e);
            && after.best ==
               (if e.Ack? && e.conn in w.open && e.ts <= e.wallNow + 60_000_000_000
                then Some(if w.best.Some? && e.ts / 1000 < w.best.value then w.best.value else e.ts / 1000) else w.best)
            && after.lost == (w.lost || (e.Lose? && e.write in w.inFlight))
            && after.lapsed ==
               (w.lapsed || (e.Elapse? && w.key.Some? && w.clock < w.key.value.expiresAt <= w.clock + e.ms))
            && (e.Ack? && e.conn in w.open && Offer(w.open[e.conn], e.ts, e.wallNow, e.now).1.Write? ==>
                  after.writeTimes == w.writeTimes[e.conn := w.writeTimes[e.conn] + [e.now]])
  {
  }

  /** Every acknowledged instant can be read back: no year before 0000, none after 9999. */
  predicate AcksReadable(code: Coding, es: seq<Event>) {
    forall i :: 0 <= i < |es| && es[i].Ack? ==> code.valid(es[i].ts)
  }

  /** No connections yet; the device may already have a cursor. */
  ghost predicate Initial(code: Coding, w: World) {
    && w.open == map[] && w.inFlight == multiset{} && w.writeTimes == map[] && !w.lost && !w.lapsed
    && match w.key
       case None => w.best == None
       case Some(key) =>
         && w.clock < key.expiresAt && WrittenCursor(code, key.text)
         && w.best == Some(Micros(code.parse(key.text).value))
  }

  /** The text is what the coding writes for the instant it parses to. */
  ghost predicate WrittenCursor(code: Coding, text: string) {
    var p := code.parse(text);
    p.Some? && code.valid(p.value) && text == code.format(p.value) && p.value == Micros(p.value) * 1000
  }

  lemma FormattedIsWritten(code: Coding, nanos: int)
    requires Faithful(code) && code.valid(nanos)
    ensures WrittenCursor(code, code.format(nanos))
    ensures Micros(code.parse(code.format(nanos)).value) == Micros(nanos)
  {
    CutAgain(nanos);
  }

  /** A value the device acknowledged is never newer than the newest one. */
  ghost predicate Known(code: Coding, w: World, nanos: int) {
    code.valid(nanos) && w.best.Some? && Micros(nanos) <= w.best.value
  }

  /** The newest value is stored, on its way, or waiting in a batcher. */
  ghost predicate NothingForgotten(code: Coding, w: World) {
    w.best.Some? ==>
      || (w.key.Some? && code.parse(w.key.value.text) == Some(w.best.value * 1000))
      || (exists v :: v in w.inFlight && Micros(v) == w.best.value)
      || (exists c :: c in w.open && w.open[c].pending.Some? && Micros(w.open[c].pending.value) == w.best.value)
  }

  /** Nothing stored, on its way or waiting is newer than the newest value. */
  ghost predicate Bounded(code: Coding, w: World) {
    && w.open.Keys <= w.writeTimes.Keys
    && (forall c :: c in w.open && w.open[c].pending.Some? ==> Known(code, w, w.open[c].pending.value))
    && (forall v :: v in w.inFlight ==> Known(code, w, v))
    && (w.key.Some? ==> WrittenCursor(code, w.key.value.text) && Known(code, w, code.parse(w.key.value.text).value))
    && (!w.lapsed && w.key.Some? ==> w.clock < w.key.value.expiresAt)
  }

  ghost predicate Inv(code: Coding, w: World) {
    Bounded(code, w) && (!w.lost && !w.lapsed ==> NothingForgotten(code, w))
  }

  /** Raising the newest value keeps everything known that was. */
  lemma RaisedKeepsKnown(code: Coding, w: World, after: World, micros: int, v: int)
    requires after.best == Raise(w.best, micros)
    ensures Known(code, w, v) ==> Known(code, after, v)
    ensures code.valid(v) && Micros(v) <= micros ==> Known(code, after, v)
  {
  }

  lemma AckKeepsBounded(code: Coding, w: World, conn: ConnId, ts: int, wallNow: int, now: int)
    requires Bounded(code, w) && conn in w.open && code.valid(ts)
    ensures Bounded(code, AckStep(w, conn, ts, wallNow, now))
  {
    var b, after := w.open[conn], AckStep(w, conn, ts, wallNow, now);
    if Accepted(ts, wallNow) {
      var kept := Newest(b.pending, ts);
      assert after.best == Raise(w.best, Micros(ts)) && after.key == w.key;
      RaisedKeepsKnown(code, w, after, Micros(ts), kept);
      forall v | Known(code, w, v) ensures Known(code, after, v) {
        RaisedKeepsKnown(code, w, after, Micros(ts), v);
      }
      assert Known(code, after, kept);
      forall c | c in after.open && after.open[c].pending.Some? ensures Known(code, after, after.open[c].pending.value) {
        assert c != conn ==> after.open[c] == w.open[c];
      }
    }
  }

  lemma AckForgetsNothing(code: Coding, w: World, conn: ConnId, ts: int, wallNow: int, now: int)
    requires Bounded(code, w) && NothingForgotten(code, w) && conn in w.open && code.valid(ts)
    ensures NothingForgotten(code, AckStep(w, conn, ts, wallNow, now))
  {
    var b, after := w.open[conn], AckStep(w, conn, ts, wallNow, now);
    if Accepted(ts, wallNow) {
      var kept := Newest(b.pending, ts);
      assert b.pending.Some? ==> Known(code, w, b.pending.value);
      if Micros(kept) == after.best.value {
        KeptIsNotForgotten(w, conn, ts, wallNow, now);
      } else {
        assert after.best == w.best && after.key == w.key;
        if v :| v in w.inFlight && Micros(v) == w.best.value {
          assert v in after.inFlight;
        } else if c :| c in w.open && w.open[c].pending.Some? && Micros(w.open[c].pending.value) == w.best.value {
          assert c in after.open && after.open[c] == w.open[c];
        }
      }
    }
  }

  /** What an accepted acknowledgement leaves as newest is written now or stays pending. */
  lemma KeptIsNotForgotten(w: World, conn: ConnId, ts: int, wallNow: int, now: int)
    requires conn in w.open && conn in w.writeTimes && Accepted(ts, wallNow)
    ensures var kept := Newest(w.open[conn].pending, ts);
            var after := AckStep(w, conn, ts, wallNow, now);
            || kept in after.inFlight
            || (conn in after.open && after.open[conn].pending == Some(kept))
  {
  }

  /** The text a landing write leaves: readable, known, and the newest if the write or the old text was. */
  lemma LandedKey(code: Coding, w: World, v: int)
    requires Faithful(code) && Bounded(code, w) && v in w.inFlight
    ensures var key := AdvanceLua(w.key, w.clock, code.format(v)).0;
            && WrittenCursor(code, key.text) && Known(code, w, code.parse(key.text).value)
            && (Micros(v) == w.best.value ==> code.parse(key.text) == Some(w.best.value * 1000))
            && (!w.lapsed && w.key.Some? && code.parse(w.key.value.text) == Some(w.best.value * 1000) ==>
                  code.parse(key.text) == Some(w.best.value * 1000))
  {
    assert Known(code, w, v);
    FormattedIsWritten(code, v);
    if w.key.Some? && w.clock < w.key.value.expiresAt {
      AdvanceIsMaximum(code, code.parse(w.key.value.text).value, v, w.clock, w.key.value.expiresAt);
    }
  }

  lemma LandKeepsInv(code: Coding, w: World, v: int)
    requires Faithful(code) && Inv(code, w)
    ensures Inv(code, Step(code, w, Land(v)))
  {
    if v in w.inFlight {
      var after := Step(code, w, Land(v));
      LandedKey(code, w, v);
      if !w.lost && !w.lapsed && w.best.Some? {
        if u :| u in w.inFlight && u != v && Micros(u) == w.best.value {
          assert u in after.inFlight;
        }
      }
    }
  }

  lemma OpenKeepsInv(code: Coding, w: World, conn: ConnId)
    requires Inv(code, w)
    ensures Inv(code, Step(code, w, Open(conn)))
  {
    var after := Step(code, w, Open(conn));
    if !w.lost && !w.lapsed && w.best.Some? {
      if c :| c in w.open && w.open[c].pending.Some? && Micros(w.open[c].pending.value) == w.best.value {
        assert after.open[c] == w.open[c];
      }
    }
  }

  lemma AckKeepsInv(code: Coding, w: World, e: Event)
    requires e.Ack? && code.valid(e.ts) && Inv(code, w)
    ensures Inv(code, Step(code, w, e))
  {
    if e.conn in w.open {
      var after := AckStep(w, e.conn, e.ts, e.wallNow, e.now);
      AckKeepsBounded(code, w, e.conn, e.ts, e.wallNow, e.now);
      if !w.lost && !w.lapsed {
        AckForgetsNothing(code, w, e.conn, e.ts, e.wallNow, e.now);
      }
      assert Step(code, w, e) == after && after.lost == w.lost && after.lapsed == w.lapsed;
    } else {
      assert Step(code, w, e) == w;
    }
  }

  lemma RestKeepsInv(code: Coding, w: World, e: Event)
    requires (e.Lose? || e.Elapse?) && Inv(code, w)
    ensures Inv(code, Step(code, w, e))
  {
    var after := Step(code, w, e);
    assert after.open == w.open && after.key == w.key && after.best == w.best && after.inFlight <= w.inFlight;
    assert e.Elapse? ==> after.inFlight == w.inFlight;
  }

  lemma StepKeepsInv(code: Coding, w: World, e: Event)
    requires Faithful(code) && Inv(code, w) && (e.Ack? ==> code.valid(e.ts))
    ensures Inv(code, Step(code, w, e))
  {
    match e {
      case Open(conn) => OpenKeepsInv(code, w, conn);
      case Ack(_, _, _, _) => AckKeepsInv(code, w, e);
      case Flush(conn) => FlushKeepsInv(code, w, conn);
      case Land(v) => LandKeepsInv(code, w, v);
      case Lose(_) => RestKeepsInv(code, w, e);
      case Elapse(_) => RestKeepsInv(code, w, e);
    }
  }

  lemma FlushKeepsBounded(code: Coding, w: World, conn: ConnId)
    requires Bounded(code, w)
    ensures Bounded(code, Step(code, w, Flush(conn)))
  {
    var after := Step(code, w, Flush(conn));
    forall v | Known(code, w, v) ensures Known(code, after, v) {
    }
  }

  lemma FlushKeepsInv(code: Coding, w: World, conn: ConnId)
    requires Faithful(code) && Inv(code, w)
    ensures Inv(code, Step(code, w, Flush(conn)))
  {
    var after := Step(code, w, Flush(conn));
    FlushKeepsBounded(code, w, conn);
    if conn in w.open && !w.lost && !w.lapsed && w.best.Some? {
      if v :| v in w.inFlight && Micros(v) == w.best.value {
        assert v in after.inFlight;
      } else if c :| c in w.open && w.open[c].pending.Some? && Micros(w.open[c].pending.value) == w.best.value {
        if c == conn {
          assert w.open[c].pending.value in after.inFlight;
        } else {
          assert c in after.open && after.open[c] == w.open[c];
        }
      }
    }
  }

  lemma {:induction false} RunKeepsInv(code: Coding, w: World, es: seq<Event>)
    requires Faithful(code) && Inv(code, w) && AcksReadable(code, es)
    ensures Inv(code, Run(code, w, es))
  {
    if es != [] {
      RunKeepsInv(code, w, es[..|es| - 1]);
      StepKeepsInv(code, Run(code, w, es[..|es| - 1]), es[|es| - 1]);
    }
  }

  // ------------------------------------------------------------------
  // What holds over every run
  // ------------------------------------------------------------------

  /** In every such world the stored cursor does not exceed the newest value. */
  lemma StoredIsBounded(code: Coding, w: World)
    requires Inv(code, w)
    ensures w.Stored(code).Some? ==> w.best.Some? && Micros(w.Stored(code).value) <= w.best.value
    ensures w.Stored(code).Some? ==> w.Stored(code).value <= w.best.value * 1000
    ensures !w.Unreadable(code)
  {
  }

  /** Every write has landed, every batcher is flushed, and neither a write was lost nor the key lapsed. */
  ghost predicate AllWritten(w: World) {
    && !w.lost && !w.lapsed && w.inFlight == multiset{}
    && forall c :: c in w.open ==> w.open[c].pending == None
  }

  /** Then the stored cursor is the newest value. */
  lemma AllWrittenIsNewest(code: Coding, w: World)
    requires Inv(code, w) && AllWritten(w)
    ensures w.Stored(code) == if w.best.Some? then Some(w.best.value * 1000) else None
  {
  }

  /** The stored cursor never exceeds the newest initial or accepted value cut to microseconds. */
  lemma CursorNeverTooNew(code: Coding, w: World, es: seq<Event>)
    requires Faithful(code) && Initial(code, w) && AcksReadable(code, es)
    ensures var r := Run(code, w, es);
            r.Stored(code).Some? ==> r.best.Some? && r.Stored(code).value <= r.best.value * 1000
  {
    InitialIsInv(code, w);
    RunKeepsInv(code, w, es);
    StoredIsBounded(code, Run(code, w, es));
  }

  /**
   Once every write has landed and every connection has flushed, and neither a
   write was lost nor the key lapsed, the cursor is exactly that newest value.
   */
  lemma CursorEndsAtNewest(code: Coding, w: World, es: seq<Event>)
    requires Faithful(code) && Initial(code, w) && AcksReadable(code, es) && AllWritten(Run(code, w, es))
    ensures var r := Run(code, w, es);
            r.Stored(code) == if r.best.Some? then Some(r.best.value * 1000) else None
  {
    InitialIsInv(code, w);
    RunKeepsInv(code, w, es);
    AllWrittenIsNewest(code, Run(code, w, es));
  }

  lemma CursorStaysReadable(code: Coding, w: World, es: seq<Event>)
    requires Faithful(code) && Initial(code, w) && AcksReadable(code, es)
    ensures !Run(code, w, es).Unreadable(code)
  {
    InitialIsInv(code, w);
    RunKeepsInv(code, w, es);
    StoredIsBounded(code, Run(code, w, es));
  }

  const NO_CURSOR := World(map[], multiset{}, None, 0, None, map[], false, false)

  /**
   One early acknowledgement is enough to need `AcksReadable`: for a device without a
   cursor it is accepted, written and stored, and then the cursor cannot be read.
   */
  lemma EarlyAckBlocksTheCursor(ts: int, wallNow: int, now: int)
    requires Early(ts) && Accepted(ts, wallNow)
    ensures Run(RFC_3339, NO_CURSOR, [Open(1), Ack(1, ts, wallNow, now), Land(ts)]).Unreadable(RFC_3339)
  {
    var w1 := Step(RFC_3339, NO_CURSOR, Open(1));
    var w2 := Step(RFC_3339, w1, Ack(1, ts, wallNow, now));
    assert ts in w2.inFlight && w2.key == None;
    UnreadableAfterLanding(w2, ts);
    ThreeSteps(RFC_3339, NO_CURSOR, Open(1), Ack(1, ts, wallNow, now), Land(ts));
  }

  lemma UnreadableAfterLanding(w: World, ts: int)
    requires Early(ts) && ts in w.inFlight && w.key == None
    ensures Step(RFC_3339, w, Land(ts)).Unreadable(RFC_3339)
  {
    EarlyIsUnreadable(ts);
    EarlyIsNotInRange(ts);
  }

  lemma {:induction false} ThreeSteps(code: Coding, w: World, a: Event, b: Event, c: Event)
    ensures Run(code, w, [a, b, c]) == Step(code, Step(code, Step(code, w, a), b), c)
  {
    assert [a, b, c][..2] == [a, b] && [a, b][..1] == [a] && [a][..0] == [];
    assert Run(code, w, [a]) == Step(code, w, a);
    assert Run(code, w, [a, b]) == Step(code, Step(code, w, a), b);
  }

  /** No step moves an unexpired cursor backwards or makes it disappear, except by letting it lapse. */
  lemma StepNeverMovesBack(code: Coding, w: World, e: Event)
    requires Faithful(code) && Inv(code, w) && w.Stored(code).Some?
    ensures var after := Step(code, w, e);
            || (after.Stored(code).Some? && w.Stored(code).value <= after.Stored(code).value)
            || (e.Elapse? && after.lapsed)
  {
    if e.Land? && e.write in w.inFlight {
      AdvanceIsMaximum(code, w.Stored(code).value, e.write, w.clock, w.key.value.expiresAt);
    }
  }

  /** From any point of a run to any later one the cursor only grows, unless it lapsed. */
  lemma {:induction false} CursorNeverMovesBack(code: Coding, w: World, es: seq<Event>, i: nat)
    requires Faithful(code) && Initial(code, w) && AcksReadable(code, es) && i <= |es| && Run(code, w, es[..i]).Stored(code).Some?
    requires !Run(code, w, es).lapsed
    ensures Run(code, w, es).Stored(code).Some?
    ensures Run(code, w, es[..i]).Stored(code).value <= Run(code, w, es).Stored(code).value
    decreases |es|
  {
    if i == |es| {
      assert es[..i] == es;
    } else {
      var init := es[..|es| - 1];
      var before := Run(code, w, init);
      assert init[..i] == es[..i];
      LapsedStays(code, before, es[|es| - 1]);
      CursorNeverMovesBack(code, w, init, i);
      InitialIsInv(code, w);
      RunKeepsInv(code, w, init);
      StepNeverMovesBack(code, before, es[|es| - 1]);
    }
  }

  lemma LapsedStays(code: Coding, w: World, e: Event)
    ensures w.lapsed ==> Step(code, w, e).lapsed
  {
  }

  lemma InitialIsInv(code: Coding, w: World)
    requires Initial(code, w)
    ensures Inv(code, w)
  {
  }

  /** All of it for the texts the program really writes. */
  lemma StoredCursorIsCorrect(w: World, es: seq<Event>, i: nat)
    requires Initial(RFC_3339, w) && AcksReadable(RFC_3339, es) && i <= |es|
    ensures var r := Run(RFC_3339, w, es);
            var earlier := Run(RFC_3339, w, es[..i]);
            && (r.Stored(RFC_3339).Some? ==> r.best.Some? && r.Stored(RFC_3339).value <= r.best.value * 1000)
            && !r.Unreadable(RFC_3339)
            && (earlier.Stored(RFC_3339).Some? && !r.lapsed ==>
                  r.Stored(RFC_3339).Some? && earlier.Stored(RFC_3339).value <= r.Stored(RFC_3339).value)
            && (AllWritten(r) ==>
                  r.Stored(RFC_3339) == if r.best.Some? then Some(r.best.value * 1000) else None)
  {
    Rfc3339IsFaithful();
    var r := Run(RFC_3339, w, es);
    CursorNeverTooNew(RFC_3339, w, es);
    CursorStaysReadable(RFC_3339, w, es);
    if Run(RFC_3339, w, es[..i]).Stored(RFC_3339).Some? && !r.lapsed {
      CursorNeverMovesBack(RFC_3339, w, es, i);
    }
    if AllWritten(r) {
      CursorEndsAtNewest(RFC_3339, w, es);
    }
  }

  /**
   A cursor lives a week: written where none was live, it is read back, cut to
   microseconds, until 604 800 seconds have passed, and not after.
   */
  lemma CursorLivesAWeek(code: Coding, w: World, v: int, ms: nat)
    requires Faithful(code) && code.valid(v) && v in w.inFlight && (w.key.None? || w.key.value.expiresAt <= w.clock)
    ensures Step(code, Step(code, w, Land(v)), Elapse(ms)).Stored(code) ==
              if ms < 604_800_000 then Some(v / 1000 * 1000) else None
  {
    AdvanceInNumbers(w.key, w.clock, code.format(v));
  }

  // ------------------------------------------------------------------
  // How often a connection writes
  // ------------------------------------------------------------------

  /** Successive entries are at least `gap` apart. */
  predicate Spaced(times: seq<int>, gap: int) {
    forall i :: 0 < i < |times| ==> times[i] - times[i - 1] >= gap
  }

  /** The connection's writes are spaced, and its batcher knows the last of them. */
  ghost predicate SpacedWrites(w: World, c: ConnId)
    requires c in w.writeTimes
  {
    var times := w.writeTimes[c];
    && Spaced(times, 1_000_000_000)
    && (c in w.open ==>
          && w.open[c].minInterval == ACK_MIN_INTERVAL
          && w.open[c].lastWrite == if times == [] then None else Some(times[|times| - 1]))
  }

  ghost predicate SpacingInv(w: World) {
    w.open.Keys <= w.writeTimes.Keys && forall c :: c in w.writeTimes ==> SpacedWrites(w, c)
  }

  lemma LaterIsSpaced(times: seq<int>, now: int)
    requires Spaced(times, ACK_MIN_INTERVAL)
    requires times != [] ==> now - times[|times| - 1] >= ACK_MIN_INTERVAL
    ensures Spaced(times + [now], ACK_MIN_INTERVAL)
  {
  }

  lemma AckKeepsSpacing(w: World, conn: ConnId, ts: int, wallNow: int, now: int)
    requires SpacingInv(w) && conn in w.open
    ensures SpacingInv(AckStep(w, conn, ts, wallNow, now))
  {
    var after := AckStep(w, conn, ts, wallNow, now);
    assert SpacedWrites(w, conn);
    if Accepted(ts, wallNow) && Due(w.open[conn], now) {
      LaterIsSpaced(w.writeTimes[conn], now);
    }
    assert SpacedWrites(after, conn);
    forall c | c in after.writeTimes && c != conn ensures SpacedWrites(after, c) {
      assert SpacedWrites(w, c);
    }
  }

  lemma OpenKeepsSpacing(code: Coding, w: World, conn: ConnId)
    requires SpacingInv(w)
    ensures SpacingInv(Step(code, w, Open(conn)))
  {
    var after := Step(code, w, Open(conn));
    forall c | c in after.writeTimes ensures SpacedWrites(after, c) {
      if c in w.writeTimes {
        assert SpacedWrites(w, c);
      }
    }
  }

  lemma FlushKeepsSpacing(code: Coding, w: World, conn: ConnId)
    requires SpacingInv(w)
    ensures SpacingInv(Step(code, w, Flush(conn)))
  {
    var after := Step(code, w, Flush(conn));
    forall c | c in after.writeTimes ensures SpacedWrites(after, c) {
      assert SpacedWrites(w, c);
    }
  }

  lemma OtherStepsKeepSpacing(code: Coding, w: World, e: Event)
    requires SpacingInv(w) && !e.Ack?
    ensures SpacingInv(Step(code, w, e))
  {
    if e.Open? {
      OpenKeepsSpacing(code, w, e.conn);
    } else if e.Flush? {
      FlushKeepsSpacing(code, w, e.conn);
    } else {
      var after := Step(code, w, e);
      forall c | c in after.writeTimes ensures SpacedWrites(after, c) {
        assert SpacedWrites(w, c);
      }
    }
  }

  /** In every run, a connection's acknowledgement-driven writes are `ACK_MIN_INTERVAL` apart. */
  lemma {:induction false} WritesAreSpaced(code: Coding, w: World, es: seq<Event>)
    requires Initial(code, w)
    ensures SpacingInv(Run(code, w, es))
  {
    if es != [] {
      var init, e := es[..|es| - 1], es[|es| - 1];
      WritesAreSpaced(code, w, init);
      var before := Run(code, w, init);
      if e.Ack? {
        if e.conn in before.open {
          AckKeepsSpacing(before, e.conn, e.ts, e.wallNow, e.now);
        }
      } else {
        OtherStepsKeepSpacing(code, before, e);
      }
    }
  }

  // ------------------------------------------------------------------
  // How long a value waits
  // ------------------------------------------------------------------

  /** Step `i` acknowledged this value on the connection, less than a second after its last write. */
  predicate JustAcknowledged(w: World, es: seq<Event>, i: int, c: ConnId, v: int)
    requires c in w.open
  {
    && 0 <= i < |es| && es[i].Ack? && es[i].conn == c && es[i].ts == v
    && w.open[c].lastWrite.Some? && es[i].now - w.open[c].lastWrite.value < 1_000_000_000
  }

  ghost predicate WaitsShortly(w: World, es: seq<Event>, c: ConnId)
    requires c in w.open
  {
    && w.open[c].minInterval == ACK_MIN_INTERVAL
    && (w.open[c].pending.Some? ==> exists i :: JustAcknowledged(w, es, i, c, w.open[c].pending.value))
  }

  lemma WaitsStill(w: World, after: World, es: seq<Event>, e: Event, c: ConnId)
    requires c in w.open && c in after.open && WaitsShortly(w, es, c)
    requires after.open[c].minInterval == w.open[c].minInterval
    requires after.open[c].pending.Some? ==> after.open[c] == w.open[c]
    ensures WaitsShortly(after, es + [e], c)
  {
    if after.open[c].pending.Some? {
      var i :| JustAcknowledged(w, es, i, c, w.open[c].pending.value);
      assert JustAcknowledged(after, es + [e], i, c, after.open[c].pending.value);
    }
  }

  lemma AckWaitsShortly(w: World, es: seq<Event>, e: Event)
    requires e.Ack? && e.conn in w.open && e.conn in w.writeTimes && WaitsShortly(w, es, e.conn)
    ensures var after := AckStep(w, e.conn, e.ts, e.wallNow, e.now);
            e.conn in after.open && WaitsShortly(after, es + [e], e.conn)
  {
    var b, after := w.open[e.conn], AckStep(w, e.conn, e.ts, e.wallNow, e.now);
    OfferInNumbers(b, e.ts, e.wallNow, e.now);
    if after.open[e.conn].pending.Some? {
      var v := after.open[e.conn].pending.value;
      if v == e.ts && Accepted(e.ts, e.wallNow) {
        assert JustAcknowledged(after, es + [e], |es|, e.conn, v);
      } else {
        var i :| JustAcknowledged(w, es, i, e.conn, b.pending.value);
        assert JustAcknowledged(after, es + [e], i, e.conn, v);
      }
    }
  }

  lemma StepWaitsShortly(code: Coding, w: World, es: seq<Event>, e: Event, c: ConnId)
    requires c in Step(code, w, e).open && w.open.Keys <= w.writeTimes.Keys && (c in w.open ==> WaitsShortly(w, es, c))
    ensures WaitsShortly(Step(code, w, e), es + [e], c)
  {
    var after := Step(code, w, e);
    if c in w.open {
      if e.Ack? && e.conn == c {
        AckWaitsShortly(w, es, e);
      } else {
        WaitsStill(w, after, es, e, c);
      }
    }
  }

  /**
   In every run, whatever waits in a connection's batcher was acknowledged less than the
   interval after that connection's last write: a due write is never put off.
   */
  lemma {:induction false} WaitingIsRecent(code: Coding, w: World, es: seq<Event>, c: ConnId)
    requires Initial(code, w) && c in Run(code, w, es).open
    ensures WaitsShortly(Run(code, w, es), es, c)
  {
    if es != [] {
      var init, e := es[..|es| - 1], es[|es| - 1];
      assert es == init + [e];
      OpenIsKnown(code, w, init);
      if c in Run(code, w, init).open {
        WaitingIsRecent(code, w, init, c);
      }
      StepWaitsShortly(code, Run(code, w, init), init, e, c);
    }
  }

  lemma OpenIsKnown(code: Coding, w: World, es: seq<Event>)
    requires Initial(code, w)
    ensures Run(code, w, es).open.Keys <= Run(code, w, es).writeTimes.Keys
  {
    WritesAreSpaced(code, w, es);
  }
}
