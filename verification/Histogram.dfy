/** The fixed-bucket histogram (crates/infra/src/metrics.rs) against the raw observations. */
module Histograms {
  import opened Sequences

  // ------------------------------------------------------------------
  // Counting observations directly
  // ------------------------------------------------------------------

  /** How many observations are at most `x`: what a rendered bucket must show. */
  function AtMost(obs: seq<real>, x: real): nat {
    if obs == [] then 0
    else AtMost(obs[..|obs| - 1], x) + if obs[|obs| - 1] <= x then 1 else 0
  }

  /** The slot of a value: the first bound it does not exceed, or the slot after all bounds. */
  function Slot(bounds: seq<real>, v: real): (i: nat)
    ensures i <= |bounds|
    ensures forall k :: 0 <= k < i ==> v > bounds[k]
    ensures i < |bounds| ==> v <= bounds[i]
  {
    if bounds == [] then 0
    else
      var i := Slot(bounds[..|bounds| - 1], v);
      if i < |bounds| - 1 || v <= bounds[|bounds| - 1] then i else |bounds|
  }

  function InSlot(obs: seq<real>, bounds: seq<real>, i: nat): nat {
    if obs == [] then 0
    else InSlot(obs[..|obs| - 1], bounds, i) + if Slot(bounds, obs[|obs| - 1]) == i then 1 else 0
  }

  function UpToSlot(obs: seq<real>, bounds: seq<real>, i: int): nat {
    if obs == [] then 0
    else UpToSlot(obs[..|obs| - 1], bounds, i) + if Slot(bounds, obs[|obs| - 1]) <= i then 1 else 0
  }

  predicate Ascending(s: seq<real>) {
    forall i, j :: 0 <= i < j < |s| ==> s[i] <= s[j]
  }

  /** Slots up to a bound's own hold exactly the observations at most that bound. */
  lemma {:induction false} SlotsCountAtMost(obs: seq<real>, bounds: seq<real>, i: nat)
    requires Ascending(bounds) && i < |bounds|
    ensures UpToSlot(obs, bounds, i) == AtMost(obs, bounds[i])
  {
    if obs != [] {
      SlotsCountAtMost(obs[..|obs| - 1], bounds, i);
    }
  }

  lemma {:induction false} OneMoreSlot(obs: seq<real>, bounds: seq<real>, i: nat)
    ensures UpToSlot(obs, bounds, i) == UpToSlot(obs, bounds, i - 1) + InSlot(obs, bounds, i)
  {
    if obs != [] {
      OneMoreSlot(obs[..|obs| - 1], bounds, i);
    }
  }

  lemma {:induction false} NoSlotBeforeTheFirst(obs: seq<real>, bounds: seq<real>)
    ensures UpToSlot(obs, bounds, -1) == 0
  {
    if obs != [] {
      NoSlotBeforeTheFirst(obs[..|obs| - 1], bounds);
    }
  }

  lemma {:induction false} AllSlotsHoldEverything(obs: seq<real>, bounds: seq<real>)
    ensures UpToSlot(obs, bounds, |bounds|) == |obs|
  {
    if obs != [] {
      AllSlotsHoldEverything(obs[..|obs| - 1], bounds);
    }
  }

  /** A larger bound covers at least as many observations. */
  lemma {:induction false} AtMostGrows(obs: seq<real>, x: real, y: real)
    requires x <= y
    ensures AtMost(obs, x) <= AtMost(obs, y) <= |obs|
  {
    if obs != [] {
      AtMostGrows(obs[..|obs| - 1], x, y);
    }
  }

  /** What an observation adds to the sum: whole microseconds, negative values as zero. */
  function MicrosOf(v: real): nat {
    if v * 1_000_000.0 <= 0.0 then 0 else (v * 1_000_000.0).Floor
  }

  function SumMicros(obs: seq<real>): nat {
    if obs == [] then 0 else SumMicros(obs[..|obs| - 1]) + MicrosOf(obs[|obs| - 1])
  }

  const BY_SIZE := (a: real, b: real) => a < b

  /** The exact sum of the observations in seconds, negative ones as zero. */
  function SumSeconds(obs: seq<real>): real {
    if obs == [] then 0.0
    else SumSeconds(obs[..|obs| - 1]) + if obs[|obs| - 1] > 0.0 then obs[|obs| - 1] else 0.0
  }

  /** The recorded sum is below the exact one by less than a microsecond for each observation. */
  lemma {:induction false} SumIsClose(obs: seq<real>)
    ensures SumSeconds(obs) * 1_000_000.0 - |obs| as real <= SumMicros(obs) as real <= SumSeconds(obs) * 1_000_000.0
  {
    if obs != [] {
      SumIsClose(obs[..|obs| - 1]);
      OneIsClose(obs[|obs| - 1]);
    }
  }

  lemma OneIsClose(v: real)
    ensures var exact := (if v > 0.0 then v else 0.0) * 1_000_000.0;
            exact - 1.0 < MicrosOf(v) as real <= exact
  {
  }

  // ------------------------------------------------------------------
  // The histogram
  // ------------------------------------------------------------------

  /** One rendered histogram: a cumulative count per bound, the `+Inf` bucket, count and sum. */
  datatype Rendered = Rendered(buckets: seq<nat>, infinity: nat, count: nat, sumMicros: nat)

  class Histogram {
    const bounds: seq<real>
    const buckets: array<nat>
    var count: nat
    var sumMicros: nat
    ghost var observed: seq<real>

    ghost predicate Valid()
      reads this, buckets
    {
      && Ascending(bounds) && buckets.Length == |bounds| + 1
      && (forall i :: 0 <= i < buckets.Length ==> buckets[i] == InSlot(observed, bounds, i))
      && count == |observed| && sumMicros == SumMicros(observed)
    }

    constructor (initial: seq<real>)
      ensures Valid() && observed == [] && fresh(buckets)
      ensures multiset(bounds) == multiset(initial)
    {
      var sorted := Sort(initial, BY_SIZE);
      SortIsCorrect(initial, BY_SIZE);
      bounds := sorted;
      buckets := new nat[|sorted| + 1](_ => 0);
      count, sumMicros, observed := 0, 0, [];
    }

    method Observe(v: real)
      requires Valid()
      modifies this, buckets
      ensures Valid() && observed == old(observed) + [v]
    {
      var idx := 0;
      while idx < |bounds| && v > bounds[idx]
        invariant 0 <= idx <= |bounds|
        invariant forall k :: 0 <= k < idx ==> v > bounds[k]
      {
        idx := idx + 1;
      }
      assert idx == Slot(bounds, v);
      buckets[idx] := buckets[idx] + 1;
      count := count + 1;
      sumMicros := sumMicros + MicrosOf(v);
      observed := observed + [v];
      assert observed[..|observed| - 1] == old(observed);
    }

    /** Every rendered bucket counts the observations at most its bound; `+Inf` counts all. */
    method Render() returns (r: Rendered)
      requires Valid()
      ensures |r.buckets| == |bounds|
      ensures forall i :: 0 <= i < |bounds| ==> r.buckets[i] == AtMost(observed, bounds[i])
      ensures forall i, j :: 0 <= i < j < |bounds| ==> r.buckets[i] <= r.buckets[j]
      ensures forall i :: 0 <= i < |bounds| ==> r.buckets[i] <= r.infinity
      ensures r.infinity == r.count == |observed| && r.sumMicros == SumMicros(observed)
    {
      var cumulative := 0;
      var out: seq<nat> := [];
      NoSlotBeforeTheFirst(observed, bounds);
      var i := 0;
      while i < |bounds|
        invariant 0 <= i <= |bounds| && |out| == i
        invariant cumulative == UpToSlot(observed, bounds, i - 1)
        invariant forall k :: 0 <= k < i ==> out[k] == AtMost(observed, bounds[k])
      {
        cumulative := cumulative + buckets[i];
        OneMoreSlot(observed, bounds, i);
        SlotsCountAtMost(observed, bounds, i);
        out := out + [cumulative];
        i := i + 1;
      }
      cumulative := cumulative + buckets[|bounds|];
      OneMoreSlot(observed, bounds, |bounds|);
      AllSlotsHoldEverything(observed, bounds);
      forall i, j | 0 <= i <= j < |bounds|
        ensures AtMost(observed, bounds[i]) <= AtMost(observed, bounds[j]) <= |observed|
      {
        AtMostGrows(observed, bounds[i], bounds[j]);
      }
      r := Rendered(out, cumulative, count, sumMicros);
    }
  }
}
