/**
 The lease scripts of the shard registry (crates/infra/src/redis.rs), each one an
 atomic step on the Redis key space, and what holds over every interleaving of
 such steps by any number of workers. A worker is identified by its URL.
 */
module LeaseStore {
  import opened Options

  type Url = string
  type Shard = string

  /** Redis rejects a zero expiry, so a lease lasts at least one second. */
  type Seconds = n: int | n >= 1 witness 1

  const MS := 1000

  /** The value of a lease key and the instant (in milliseconds) it disappears. */
  datatype Entry = Entry(url: Url, expiresAt: int)

  /** The server clock and the lease keys; an expired key is invisible to `GET`. */
  datatype Store = Store(now: int, keys: map<Shard, Entry>) {
    function Get(shard: Shard): Option<Url> {
      if shard in keys && now < keys[shard].expiresAt then Some(keys[shard].url) else None
    }
  }

  /** `CLAIM_LUA`: take a free key, extend one's own, leave another's alone. */
  function ClaimLua(st: Store, shard: Shard, url: Url, ttl: Seconds): (r: (Store, bool))
    ensures r.1 <==> r.0.Get(shard) == Some(url)
    ensures r.1 <==> st.Get(shard) in {None, Some(url)}
    ensures !r.1 ==> r.0 == st
  {
    match st.Get(shard)
    case None => (st.(keys := st.keys[shard := Entry(url, st.now + ttl * MS)]), true)
    case Some(cur) =>
      if cur == url then (st.(keys := st.keys[shard := Entry(cur, st.now + ttl * MS)]), true)
      else (st, false)
  }

  /** `RELEASE_LUA`: delete the key only while it still holds one's own URL. */
  function ReleaseLua(st: Store, shard: Shard, url: Url): (r: (Store, bool))
    ensures r.0.Get(shard) != Some(url)
    ensures r.1 <==> st.Get(shard) == Some(url)
    ensures !r.1 ==> r.0 == st
  {
    if st.Get(shard) == Some(url) then (st.(keys := st.keys - {shard}), true) else (st, false)
  }

  /** What can happen to the store: a worker's script, or time passing. */
  datatype Step =
    | Claim(url: Url, shard: Shard, ttl: Seconds)
    | Release(url: Url, shard: Shard)
    | Tick(elapsed: nat)

  function Apply(st: Store, step: Step): Store {
    match step
    case Claim(url, shard, ttl) => ClaimLua(st, shard, url, ttl).0
    case Release(url, shard) => ReleaseLua(st, shard, url).0
    case Tick(elapsed) => st.(now := st.now + elapsed)
  }

  function Run(st: Store, steps: seq<Step>): Store {
    if steps == [] then st else Apply(Run(st, steps[..|steps| - 1]), steps[|steps| - 1])
  }

  /** Steps taken by nobody using `url`. */
  predicate Foreign(step: Step, url: Url) {
    step.Tick? || step.url != url
  }

  predicate AllForeign(steps: seq<Step>, url: Url) {
    forall i :: 0 <= i < |steps| ==> Foreign(steps[i], url)
  }

  // ------------------------------------------------------------------
  // What one step leaves alone
  // ------------------------------------------------------------------

  /**
   The two scripts in numbers: a claim of a free or own key writes the URL for `ttl`
   seconds from now and any other changes nothing; a release deletes an own live key and
   nothing else.
   */
  lemma ScriptsInNumbers(st: Store, shard: Shard, url: Url, ttl: Seconds)
    ensures var free := shard !in st.keys || st.keys[shard].expiresAt <= st.now;
            Apply(st, Claim(url, shard, ttl)) ==
              if free || st.keys[shard].url == url
              then Store(st.now, st.keys[shard := Entry(url, st.now + 1000 * ttl)]) else st
    ensures Apply(st, Release(url, shard)) ==
              if shard in st.keys && st.now < st.keys[shard].expiresAt && st.keys[shard].url == url
              then Store(st.now, st.keys - {shard}) else st
  {
  }

  /** No worker's step changes or deletes a live entry holding another URL. */
  lemma StepKeepsOthersEntries(st: Store, step: Step, shard: Shard)
    requires !step.Tick?
    requires st.Get(shard).Some? && st.Get(shard).value != step.url
    ensures Apply(st, step).keys[shard] == st.keys[shard]
    ensures Apply(st, step).Get(shard) == st.Get(shard)
  {
    assert step.shard != shard || Apply(st, step) == st;
  }

  /** Steps of others never make a shard carry `url` when it did not. */
  lemma {:induction false} ForeignRunNeverGivesUrl(st: Store, steps: seq<Step>, url: Url, shard: Shard)
    requires AllForeign(steps, url)
    requires st.Get(shard) != Some(url)
    ensures Run(st, steps).Get(shard) != Some(url)
  {
    if steps != [] {
      var last := steps[|steps| - 1];
      ForeignRunNeverGivesUrl(st, steps[..|steps| - 1], url, shard);
      assert Foreign(last, url);
      var before := Run(st, steps[..|steps| - 1]);
      if last.Claim? && last.shard == shard {
        assert Apply(before, last).Get(shard) != Some(url);
      }
    }
  }

  /** Nobody using `url` touches the shard. */
  predicate HandsOff(steps: seq<Step>, url: Url, shard: Shard) {
    forall i :: 0 <= i < |steps| ==> Foreign(steps[i], url) || steps[i].shard != shard
  }

  lemma HandsOffStep(st: Store, step: Step, url: Url, shard: Shard)
    requires Foreign(step, url) || step.shard != shard
    ensures st.Get(shard) != Some(url) ==> Apply(st, step).Get(shard) != Some(url)
    ensures st.Get(shard) == Some(url) ==>
              shard in Apply(st, step).keys && Apply(st, step).keys[shard] == st.keys[shard]
  {
    if st.Get(shard) == Some(url) && !step.Tick? && step.shard == shard {
      StepKeepsOthersEntries(st, step, shard);
    }
  }

  /**
   While a worker does not touch a shard, the shard shows its URL exactly if it did at
   the start and that lease has not expired yet, whatever the others do.
   */
  lemma {:induction false} UntouchedUntilExpiry(st: Store, steps: seq<Step>, url: Url, shard: Shard)
    requires HandsOff(steps, url, shard)
    ensures Run(st, steps).Get(shard) == Some(url) <==>
              st.Get(shard) == Some(url) && Run(st, steps).now < st.keys[shard].expiresAt
    ensures Run(st, steps).Get(shard) == Some(url) ==> Run(st, steps).keys[shard] == st.keys[shard]
  {
    if steps != [] {
      var init, last := steps[..|steps| - 1], steps[|steps| - 1];
      UntouchedUntilExpiry(st, init, url, shard);
      HandsOffStep(Run(st, init), last, url, shard);
    }
  }

  lemma {:induction false} RunConcat(st: Store, a: seq<Step>, b: seq<Step>)
    ensures Run(st, a + b) == Run(Run(st, a), b)
  {
    if b == [] {
      assert a + b == a;
    } else {
      var n := |b| - 1;
      assert (a + b)[..|a + b| - 1] == a + b[..n];
      RunConcat(st, a, b[..n]);
    }
  }

  lemma {:induction false} RunKeepsTimeOrder(st: Store, steps: seq<Step>)
    ensures st.now <= Run(st, steps).now
  {
    if steps != [] {
      RunKeepsTimeOrder(st, steps[..|steps| - 1]);
    }
  }

  // ------------------------------------------------------------------
  // Exclusion over every interleaving
  // ------------------------------------------------------------------

  /**
   The store together with the successful claims: `until[(u, s)]` is the end of
   the lease worker `u` won last on shard `s` and has not released since.
   */
  datatype System = System(store: Store, until: map<(Url, Shard), int>)

  function ApplySystem(sys: System, step: Step): System {
    var store := Apply(sys.store, step);
    match step
    case Claim(url, shard, ttl) =>
      if ClaimLua(sys.store, shard, url, ttl).1
      then System(store, sys.until[(url, shard) := sys.store.now + ttl * MS])
      else System(store, sys.until)
    case Release(url, shard) => System(store, sys.until - {(url, shard)})
    case Tick(_) => System(store, sys.until)
  }

  function RunSystem(sys: System, steps: seq<Step>): System {
    if steps == [] then sys else ApplySystem(RunSystem(sys, steps[..|steps| - 1]), steps[|steps| - 1])
  }

  /** Worker `url` is inside a successful claim that it did not release and that has not expired. */
  predicate Inside(sys: System, url: Url, shard: Shard) {
    (url, shard) in sys.until && sys.store.now < sys.until[(url, shard)]
  }

  /**
   Who is inside, in numbers: a worker whose claim is granted, for `ttl` seconds or until
   it releases the shard; nobody else's step puts it in or out.
   */
  lemma InsideInNumbers(sys: System, step: Step, url: Url, shard: Shard)
    ensures var after := ApplySystem(sys, step);
            Inside(after, url, shard) <==>
              match step
              case Claim(u, s, ttl) =>
                if (u, s) == (url, shard) && ClaimLua(sys.store, s, u, ttl).1 then true else Inside(sys, url, shard)
              case Release(u, s) => (u, s) != (url, shard) && Inside(sys, url, shard)
              case Tick(elapsed) =>
                (url, shard) in sys.until && sys.store.now + elapsed < sys.until[(url, shard)]
    ensures step.Claim? && ClaimLua(sys.store, step.shard, step.url, step.ttl).1 ==>
              var after := ApplySystem(sys, step);
              (step.url, step.shard) in after.until && after.until[(step.url, step.shard)] == sys.store.now + 1000 * step.ttl
  {
  }

  /** Every claim somebody is inside of is backed by the key itself. */
  ghost predicate Backed(sys: System) {
    forall url, shard :: Inside(sys, url, shard) ==>
      shard in sys.store.keys && sys.store.keys[shard] == Entry(url, sys.until[(url, shard)])
  }

  lemma StepKeepsBacked(sys: System, step: Step)
    requires Backed(sys)
    ensures Backed(ApplySystem(sys, step))
  {
    var after := ApplySystem(sys, step);
    forall url, shard | Inside(after, url, shard)
      ensures shard in after.store.keys
      ensures after.store.keys[shard] == Entry(url, after.until[(url, shard)])
    {
      if step.Claim? && step.url == url && step.shard == shard {
        assert Inside(sys, url, shard) ==> ClaimLua(sys.store, shard, url, step.ttl).1;
      } else {
        assert Inside(sys, url, shard);
      }
    }
  }

  lemma {:induction false} RunKeepsBacked(sys: System, steps: seq<Step>)
    requires Backed(sys)
    ensures Backed(RunSystem(sys, steps))
  {
    if steps != [] {
      RunKeepsBacked(sys, steps[..|steps| - 1]);
      StepKeepsBacked(RunSystem(sys, steps[..|steps| - 1]), steps[|steps| - 1]);
    }
  }

  /**
   Lease exclusion: from any store content, after any interleaving of claims,
   refreshes, releases and the passing of time by any workers, at most one URL
   is inside an unexpired, unreleased claim of a shard, and `GET` names it.
   */
  lemma LeaseExclusion(initial: Store, steps: seq<Step>, a: Url, b: Url, shard: Shard)
    ensures var sys := RunSystem(System(initial, map[]), steps);
            && (Inside(sys, a, shard) && Inside(sys, b, shard) ==> a == b)
            && (Inside(sys, a, shard) ==> sys.store.Get(shard) == Some(a))
  {
    RunKeepsBacked(System(initial, map[]), steps);
  }

  /** The bookkeeping of claims never influences the store. */
  lemma {:induction false} SystemRefinesStore(sys: System, steps: seq<Step>)
    ensures RunSystem(sys, steps).store == Run(sys.store, steps)
  {
    if steps != [] {
      SystemRefinesStore(sys, steps[..|steps| - 1]);
    }
  }

  // ------------------------------------------------------------------
  // Continuity under the refresher's schedule
  // ------------------------------------------------------------------

  /** The refresher's period in seconds: three renewals per TTL, never under one second. */
  function Period(ttl: Seconds): (p: Seconds)
    ensures ttl >= 3 ==> 2 * p < ttl && 3 * p <= ttl < 3 * p + 3
    ensures ttl < 3 ==> p == 1
  {
    if ttl / 3 < 1 then 1 else ttl / 3
  }

  /** When the `k`-th renewal is due, counting from the refresher's first tick. */
  function TickAt(first: int, ttl: Seconds, k: int): int {
    first + k * (Period(ttl) * MS)
  }

  /**
   A renewal of round `k` must reach Redis before this instant. The lease to outlive
   was renewed at most two ticks before, except in the first two rounds, where it may
   be the acquisition, `lead` before the first tick.
   */
  function Deadline(first: int, lead: nat, ttl: Seconds, k: int): int {
    TickAt(first, ttl, k) + (ttl - 2 * Period(ttl)) * MS - if k <= 2 then lead else 0
  }

  /** Round `k` reached Redis in time during `steps`. */
  ghost predicate Landed(st: Store, steps: seq<Step>, own: Step, first: int, lead: nat, k: int)
    requires own.Claim?
  {
    exists j :: 0 <= j < |steps| && steps[j] == own &&
      TickAt(first, own.ttl, k) <= Run(st, steps[..j]).now < Deadline(first, lead, own.ttl, k)
  }

  /** If the deadlines of rounds `k` and `k + 1` are both past, one of the two has landed. */
  ghost predicate OneOfTwoLanded(st: Store, steps: seq<Step>, own: Step, first: int, lead: nat, k: int)
    requires own.Claim?
  {
    Deadline(first, lead, own.ttl, k + 1) <= Run(st, steps).now ==>
      Landed(st, steps, own, first, lead, k) || Landed(st, steps, own, first, lead, k + 1)
  }

  /** At no moment of the run have two consecutive rounds failed. */
  ghost predicate NoTwoRoundsFail(st: Store, steps: seq<Step>, own: Step, first: int, lead: nat)
    requires own.Claim?
  {
    forall i, k: int :: 0 <= i <= |steps| && k >= 1 ==> OneOfTwoLanded(st, steps[..i], own, first, lead, k)
  }

  /** The worker holds its shard: it never releases it and always asks for the same lease. */
  predicate OnlyRenews(steps: seq<Step>, own: Step)
    requires own.Claim?
  {
    forall i :: 0 <= i < |steps| ==>
      steps[i] == own || Foreign(steps[i], own.url) || steps[i].shard != own.shard
  }

  /** The last step of `steps` that is `own`, or -1. */
  function LastOwn(steps: seq<Step>, own: Step): (j: int)
    ensures -1 <= j < |steps|
    ensures 0 <= j ==> steps[j] == own
    ensures forall i :: j < i < |steps| ==> steps[i] != own
  {
    if steps == [] then -1
    else if steps[|steps| - 1] == own then |steps| - 1
    else LastOwn(steps[..|steps| - 1], own)
  }

  lemma RunTimesAreOrdered(st: Store, steps: seq<Step>, i: nat, j: nat)
    requires i <= j <= |steps|
    ensures Run(st, steps[..i]).now <= Run(st, steps[..j]).now
  {
    assert steps[..j] == steps[..i] + steps[i..j];
    RunConcat(st, steps[..i], steps[i..j]);
    RunKeepsTimeOrder(Run(st, steps[..i]), steps[i..j]);
  }

  /** When the lease as last renewed within `steps` was granted. */
  function GrantedAt(st: Store, steps: seq<Step>, own: Step): int {
    var j := LastOwn(steps, own);
    if j < 0 then st.now else Run(st, steps[..j]).now
  }

  /** Under the schedule, less than one TTL has passed since the last renewal. */
  lemma RenewedWithinTtl(st: Store, steps: seq<Step>, own: Step, lead: nat)
    requires own.Claim?
    requires NoTwoRoundsFail(st, steps, own, st.now + lead, lead)
    ensures Run(st, steps).now < GrantedAt(st, steps, own) + own.ttl * MS
  {
    var first := st.now + lead;
    var granted := GrantedAt(st, steps, own);
    GrantedAfterStart(st, steps, own);
    if granted + own.ttl * MS <= Run(st, steps).now {
      var k := FirstTickAfter(first, lead, own.ttl, granted);
      assert OneOfTwoLanded(st, steps[..|steps|], own, first, lead, k);
      assert steps[..|steps|] == steps;
      LandedBeforeGranted(st, steps, own, first, lead, if Landed(st, steps, own, first, lead, k) then k else k + 1);
      assert false;
    }
  }

  lemma GrantedAfterStart(st: Store, steps: seq<Step>, own: Step)
    ensures st.now <= GrantedAt(st, steps, own)
  {
    if LastOwn(steps, own) >= 0 {
      RunKeepsTimeOrder(st, steps[..LastOwn(steps, own)]);
    }
  }

  /** The last renewal is at least as late as the one of any round that landed. */
  lemma LandedBeforeGranted(st: Store, steps: seq<Step>, own: Step, first: int, lead: nat, k: int)
    requires own.Claim? && Landed(st, steps, own, first, lead, k)
    ensures TickAt(first, own.ttl, k) <= GrantedAt(st, steps, own)
  {
    var i :| 0 <= i < |steps| && steps[i] == own &&
      TickAt(first, own.ttl, k) <= Run(st, steps[..i]).now < Deadline(first, lead, own.ttl, k);
    RunTimesAreOrdered(st, steps, i, LastOwn(steps, own));
  }

  /**
   The first round whose tick lies after `granted`, a moment not before the acquisition:
   the deadline of the round after it is within one TTL.
   */
  lemma FirstTickAfter(first: int, lead: nat, ttl: Seconds, granted: int) returns (k: int)
    requires first - lead <= granted
    ensures k >= 1 && granted < TickAt(first, ttl, k) && granted < TickAt(first, ttl, k + 1)
    ensures Deadline(first, lead, ttl, k + 1) <= granted + ttl * MS
  {
    var p := Period(ttl) * MS;
    k := FirstMultipleAfter(p, granted - first);
    assert (k + 1) * p == k * p + p;
  }

  lemma FirstMultipleAfter(p: int, d: int) returns (k: int)
    requires p > 0
    ensures k >= 1 && d < k * p && (d < 0 ==> k == 1) && (d >= 0 ==> k * p <= d + p)
  {
    if d < 0 {
      k := 1;
    } else {
      k := d / p + 1;
      assert d == p * (d / p) + d % p;
      assert k * p == p * (d / p) + p;
    }
  }

  /**
   Lease continuity: once the shard was acquired, `lead` milliseconds before the
   refresher's first tick, and while no two consecutive rounds fail, the key
   names this worker at every instant of the run, whatever the others do.
   */
  lemma {:induction false} LeaseContinuity(st: Store, steps: seq<Step>, own: Step, lead: nat)
    requires own.Claim? && own.shard in st.keys
    requires st.keys[own.shard] == Entry(own.url, st.now + own.ttl * MS)
    requires OnlyRenews(steps, own)
    requires NoTwoRoundsFail(st, steps, own, st.now + lead, lead)
    ensures Run(st, steps).Get(own.shard) == Some(own.url)
    ensures Run(st, steps).keys[own.shard].expiresAt == GrantedAt(st, steps, own) + own.ttl * MS
  {
    RenewedWithinTtl(st, steps, own, lead);
    if steps != [] {
      var init := steps[..|steps| - 1];
      PrefixKeepsSchedule(st, steps, own, st.now + lead, lead);
      LeaseContinuity(st, init, own, lead);
      var last := steps[|steps| - 1];
      var before := Run(st, init);
      if last == own {
      } else {
        assert LastOwn(steps, own) == LastOwn(init, own);
        var j := LastOwn(init, own);
        assert j >= 0 ==> steps[..j] == init[..j];
        if !last.Tick? && last.shard == own.shard {
          StepKeepsOthersEntries(before, last, own.shard);
        }
      }
    }
  }

  lemma PrefixKeepsSchedule(st: Store, steps: seq<Step>, own: Step, first: int, lead: nat)
    requires own.Claim? && steps != []
    requires NoTwoRoundsFail(st, steps, own, first, lead)
    ensures NoTwoRoundsFail(st, steps[..|steps| - 1], own, first, lead)
  {
    var init := steps[..|steps| - 1];
    forall i, k: int | 0 <= i <= |init| && k >= 1 ensures OneOfTwoLanded(st, init[..i], own, first, lead, k) {
      assert init[..i] == steps[..i];
    }
  }
}
