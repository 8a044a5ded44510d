/**
 Limits how often a connection writes its cursor (crates/fanout-worker/src/replay.rs).
 Instants, wall-clock times and durations are in nanoseconds.
 */
module AckBatching {
  import opened Options
  import opened Times

  const ACK_MIN_INTERVAL: nat := SECOND
  const FUTURE_ACK_TOLERANCE := 60 * SECOND

  datatype AckOutcome = Ignored | Buffered | Write(cursor: int)

  /** The batcher's fields. */
  datatype Batcher = Batcher(minInterval: nat, lastWrite: Option<int>, pending: Option<int>)

  function NewBatcher(minInterval: nat): Batcher {
    Batcher(minInterval, None, None)
  }

  /** An acknowledgement from too far in the future does not count. */
  predicate Accepted(ts: int, wallNow: int) {
    ts <= wallNow + FUTURE_ACK_TOLERANCE
  }

  /** A clock reading before `last` counts as no time at all. */
  predicate Due(b: Batcher, now: int) {
    b.lastWrite.None? ||
    (if now < b.lastWrite.value then 0 else now - b.lastWrite.value) >= b.minInterval
  }

  function Newest(pending: Option<int>, ts: int): int {
    if pending.Some? && pending.value >= ts then pending.value else ts
  }

  function Offer(b: Batcher, ts: int, wallNow: int, now: int): (r: (Batcher, AckOutcome)) {
    if !Accepted(ts, wallNow) then (b, Ignored)
    else
      var best := Newest(b.pending, ts);
      if Due(b, now) then (b.(lastWrite := Some(now), pending := None), Write(best))
      else (b.(pending := Some(best)), Buffered)
  }

  /**
   An acknowledgement in numbers: over 60 s ahead it is ignored; otherwise the larger of
   it and the waiting value is written if the interval has passed since the last write,
   or there was none, and waits if not.
   */
  lemma OfferInNumbers(b: Batcher, ts: int, wallNow: int, now: int)
    ensures var (after, outcome) := Offer(b, ts, wallNow, now);
            var best := if b.pending.Some? && ts < b.pending.value then b.pending.value else ts;
            if ts > wallNow + 60_000_000_000 then outcome == Ignored && after == b
            else if b.lastWrite.None? || b.minInterval == 0 || now - b.lastWrite.value >= b.minInterval
            then outcome == Write(best) && after == Batcher(b.minInterval, Some(now), None)
            else outcome == Buffered && after == Batcher(b.minInterval, b.lastWrite, Some(best))
  {
  }

  class AckBatcher {
    const minInterval: nat
    var lastWrite: Option<int>
    var pending: Option<int>

    function State(): Batcher
      reads this
    {
      Batcher(minInterval, lastWrite, pending)
    }

    constructor (minInterval: nat)
      ensures State() == NewBatcher(minInterval)
    {
      this.minInterval, lastWrite, pending := minInterval, None, None;
    }

    method OfferAck(ts: int, wallNow: int, now: int) returns (outcome: AckOutcome)
      modifies this
      ensures (State(), outcome) == Offer(old(State()), ts, wallNow, now)
      ensures outcome == Ignored <==> ts > wallNow + 60_000_000_000
      ensures outcome == Ignored ==> pending == old(pending) && lastWrite == old(lastWrite)
      ensures outcome != Ignored ==>
                var best := if old(pending).Some? && ts < old(pending).value then old(pending).value else ts;
                if old(lastWrite).None? || minInterval == 0 || now - old(lastWrite).value >= minInterval
                then outcome == Write(best) && pending == None && lastWrite == Some(now)
                else outcome == Buffered && pending == Some(best) && lastWrite == old(lastWrite)
    {
      if ts > wallNow + FUTURE_ACK_TOLERANCE {
        return Ignored;
      }
      var best := ts;
      if pending.Some? && pending.value >= ts {
        best := pending.value;
      }
      pending := Some(best);
      var due := true;
      if lastWrite.Some? {
        var elapsed := if now < lastWrite.value then 0 else now - lastWrite.value;
        due := elapsed >= minInterval;
      }
      if due {
        lastWrite := Some(now);
        outcome := if pending.Some? then Write(pending.value) else Buffered;
        pending := None;
      } else {
        outcome := Buffered;
      }
    }

    method TakePending() returns (waiting: Option<int>)
      modifies this
      ensures waiting == old(pending)
      ensures State() == old(State()).(pending := None)
    {
      waiting := pending;
      pending := None;
    }
  }
}
