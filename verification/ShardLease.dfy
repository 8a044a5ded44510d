/**
 A worker's claim on its shards (crates/fanout-worker/src/lease.rs). Every call to
 Redis is one step of `LeaseStore`; before each of them the other workers may take
 any number of steps of their own, and the call may fail on the way there or back.
 */
module ShardLeases {
  import opened Options
  import opened LeaseStore

  /** How a call to Redis ends: normally, without reaching it, or with the reply lost. */
  datatype Fault = Fine | NotSent | ReplyLost

  datatype Reply = Ok(done: bool) | Err

  /** The outcome of `acquire_all`: the `Conflict` error names the live owner, if one is still visible. */
  datatype Acquired = Held | Conflict(shard: Shard, owner: Option<Url>) | Failed

  /** What the rest of the world does before this worker's `k`-th call, and how that call ends. */
  datatype Environment = Environment(others: nat -> seq<Step>, faults: nat -> Fault)

  ghost predicate Honest(env: Environment, url: Url) {
    forall k: nat :: AllForeign(env.others(k), url)
  }

  /** The key space shared by all workers, with the steps taken so far. */
  class ShardRegistry {
    var store: Store
    ghost var start: Store
    ghost var trace: seq<Step>

    ghost predicate Valid()
      reads this
    {
      store == Run(start, trace)
    }

    constructor (initial: Store)
      ensures Valid() && store == initial && start == initial && trace == []
    {
      store, start, trace := initial, initial, [];
    }

    method Take(step: Step)
      requires Valid()
      modifies this
      ensures Valid() && start == old(start)
      ensures store == Apply(old(store), step) && trace == old(trace) + [step]
    {
      store := Apply(store, step);
      trace := trace + [step];
      assert trace[..|trace| - 1] == old(trace);
    }

    /** Other workers, and time, get their turn. */
    method Interfere(steps: seq<Step>)
      requires Valid()
      modifies this
      ensures Valid() && start == old(start)
      ensures store == Run(old(store), steps) && trace == old(trace) + steps
    {
      var i := 0;
      while i < |steps|
        invariant 0 <= i <= |steps| && Valid() && start == old(start)
        invariant store == Run(old(store), steps[..i]) && trace == old(trace) + steps[..i]
      {
        Take(steps[i]);
        i := i + 1;
        assert steps[..i][..i - 1] == steps[..i - 1];
      }
      assert steps[..i] == steps;
    }

    method ClaimShard(shard: Shard, url: Url, ttl: Seconds, fault: Fault) returns (reply: Reply)
      requires Valid()
      modifies this
      ensures Valid() && start == old(start)
      ensures fault == NotSent ==> reply == Err && store == old(store) && trace == old(trace)
      ensures fault != NotSent ==>
                && store == Apply(old(store), Claim(url, shard, ttl))
                && trace == old(trace) + [Claim(url, shard, ttl)]
                && reply == (if fault == Fine then Ok(store.Get(shard) == Some(url)) else Err)
    {
      if fault == NotSent {
        return Err;
      }
      var won := ClaimLua(store, shard, url, ttl).1;
      Take(Claim(url, shard, ttl));
      reply := if fault == Fine then Ok(won) else Err;
    }

    method ReleaseShard(shard: Shard, url: Url, fault: Fault) returns (reply: Reply)
      requires Valid()
      modifies this
      ensures Valid() && start == old(start)
      ensures fault == NotSent ==> reply == Err && store == old(store) && trace == old(trace)
      ensures fault != NotSent ==>
                && store == Apply(old(store), Release(url, shard))
                && trace == old(trace) + [Release(url, shard)]
                && reply == (if fault == Fine then Ok(old(store).Get(shard) == Some(url)) else Err)
    {
      if fault == NotSent {
        return Err;
      }
      var held := ReleaseLua(store, shard, url).1;
      Take(Release(url, shard));
      reply := if fault == Fine then Ok(held) else Err;
    }
  }

  /** The run `trace` claims `shard` successfully for `url` somewhere at or after step `from`. */
  ghost predicate WonSince(start: Store, trace: seq<Step>, from: nat, url: Url, shard: Shard, ttl: Seconds) {
    exists i :: from <= i < |trace| && trace[i] == Claim(url, shard, ttl) &&
      ClaimLua(Run(start, trace[..i]), shard, url, ttl).1
  }

  ghost predicate WonAll(start: Store, trace: seq<Step>, from: nat, url: Url, shards: seq<Shard>, ttl: Seconds) {
    forall s :: s in shards ==> WonSince(start, trace, from, url, s, ttl)
  }

  /** `later` continues `earlier`, and this worker's steps in between stay within `shards`. */
  ghost predicate Continues(earlier: seq<Step>, later: seq<Step>, url: Url, shards: seq<Shard>) {
    && earlier <= later
    && forall i :: |earlier| <= i < |later| ==> Foreign(later[i], url) || later[i].shard in shards
  }

  /** None of the steps from `from` on is a release by `url`. */
  ghost predicate NoRelease(trace: seq<Step>, from: nat, url: Url) {
    forall i :: from <= i < |trace| ==> Foreign(trace[i], url) || trace[i].Claim?
  }

  /** None of the listed shards shows `url`. */
  ghost predicate Gone(store: Store, shards: seq<Shard>, url: Url) {
    forall s :: s in shards ==> store.Get(s) != Some(url)
  }

  lemma WonStays(start: Store, trace: seq<Step>, more: seq<Step>, from: nat, url: Url, shards: seq<Shard>, ttl: Seconds)
    requires WonAll(start, trace, from, url, shards, ttl) && trace <= more
    ensures WonAll(start, more, from, url, shards, ttl)
  {
    forall s | s in shards ensures WonSince(start, more, from, url, s, ttl) {
      assert WonSince(start, trace, from, url, s, ttl);
      var i :| from <= i < |trace| && trace[i] == Claim(url, s, ttl) &&
        ClaimLua(Run(start, trace[..i]), s, url, ttl).1;
      assert more[..i] == trace[..i];
    }
  }

  lemma ContinuesThrough(a: seq<Step>, b: seq<Step>, c: seq<Step>, url: Url, small: seq<Shard>, large: seq<Shard>)
    requires Continues(a, b, url, large) && Continues(b, c, url, small)
    requires forall s :: s in small ==> s in large
    ensures Continues(a, c, url, large)
  {
    forall i | |a| <= i < |c| ensures Foreign(c[i], url) || c[i].shard in large {
      if i < |b| {
        assert c[i] == b[i];
      }
    }
  }

  /** Steps that add one shard to those this worker touched. */
  lemma ContinuesFurther(a: seq<Step>, b: seq<Step>, c: seq<Step>, url: Url, shards: seq<Shard>, s: Shard)
    requires Continues(a, b, url, shards) && Continues(b, c, url, [s])
    ensures Continues(a, c, url, shards + [s])
  {
    forall i | |a| <= i < |c| ensures Foreign(c[i], url) || c[i].shard in shards + [s] {
      if i < |b| {
        assert c[i] == b[i];
      }
    }
  }

  /** The step, if any, that a call leaves in the trace. */
  function Asked(url: Url, shard: Shard, ttl: Seconds, fault: Fault): seq<Step> {
    if fault == NotSent then [] else [Claim(url, shard, ttl)]
  }

  /**
   One round of claims of all the shards, in order: before the `k`-th call the others take
   their steps, and the call itself leaves its step unless it is not sent.
   */
  datatype Round = Round(url: Url, ttl: Seconds, prefixes: seq<Shard>, env: Environment) {
    /** The steps of the first `k` calls. */
    function Calls(k: nat): seq<Step>
      requires k <= |prefixes|
      decreases k, 0
    {
      if k == 0 then [] else Before(k - 1) + Asked(url, prefixes[k - 1], ttl, env.faults(k - 1))
    }

    /** What has happened when the `k`-th call is made. */
    function Before(k: nat): seq<Step>
      requires k < |prefixes|
      decreases k, 1
    {
      Calls(k) + env.others(k)
    }

    function All(): seq<Step> { Calls(|prefixes|) }

    /** The `k`-th call is answered, and the answer is that the claim is granted. */
    predicate Answered(start: Store, origin: seq<Step>, k: nat)
      requires k < |prefixes|
    {
      env.faults(k) == Fine && ClaimLua(Run(start, origin + Before(k)), prefixes[k], url, ttl).1
    }

    ghost predicate AllAnswered(start: Store, origin: seq<Step>, n: nat)
      requires n <= |prefixes|
    {
      forall k :: 0 <= k < n ==> Answered(start, origin, k)
    }
  }

  lemma {:induction false} OneMoreCall(round: Round, origin: seq<Step>, k: nat)
    requires k < |round.prefixes|
    ensures origin + round.Calls(k) + round.env.others(k) == origin + round.Before(k)
    ensures origin + round.Calls(k) + round.env.others(k) + Asked(round.url, round.prefixes[k], round.ttl, round.env.faults(k))
              == origin + round.Calls(k + 1)
  {
  }

  /** A round takes steps on its own shards only, and every one is a claim. */
  lemma {:induction false} CallsOnlyClaim(round: Round, k: nat)
    requires k <= |round.prefixes| && Honest(round.env, round.url)
    ensures forall i :: 0 <= i < |round.Calls(k)| ==>
              Foreign(round.Calls(k)[i], round.url) ||
              exists j :: 0 <= j < k && round.Calls(k)[i] == Claim(round.url, round.prefixes[j], round.ttl)
  {
    if k > 0 {
      CallsOnlyClaim(round, k - 1);
      assert AllForeign(round.env.others(k - 1), round.url);
      var calls, before := round.Calls(k), round.Calls(k - 1);
      forall i | 0 <= i < |calls|
        ensures Foreign(calls[i], round.url) ||
                exists j :: 0 <= j < k && calls[i] == Claim(round.url, round.prefixes[j], round.ttl)
      {
        if i < |before| {
          assert calls[i] == before[i];
        } else if i < |before| + |round.env.others(k - 1)| {
          assert calls[i] == round.env.others(k - 1)[i - |before|];
        } else {
          assert calls[i] == Claim(round.url, round.prefixes[k - 1], round.ttl);
        }
      }
    }
  }

  lemma {:induction false} CallsContinue(round: Round, origin: seq<Step>, n: nat)
    requires n <= |round.prefixes| && Honest(round.env, round.url)
    ensures Continues(origin, origin + round.Calls(n), round.url, round.prefixes[..n])
    ensures NoRelease(origin + round.Calls(n), |origin|, round.url)
  {
    CallsOnlyClaim(round, n);
    var trace, part := origin + round.Calls(n), round.prefixes[..n];
    forall i | |origin| <= i < |trace|
      ensures Foreign(trace[i], round.url) || (trace[i].Claim? && trace[i].shard in part)
    {
      assert trace[i] == round.Calls(n)[i - |origin|];
      if !Foreign(trace[i], round.url) {
        var j :| 0 <= j < n && trace[i] == Claim(round.url, round.prefixes[j], round.ttl);
        assert part[j] == round.prefixes[j];
      }
    }
  }

  lemma {:induction false} CallsBegin(round: Round, k: nat, n: nat)
    requires k <= n <= |round.prefixes|
    ensures round.Calls(k) <= round.Calls(n)
    ensures k < n ==> round.Before(k) + Asked(round.url, round.prefixes[k], round.ttl, round.env.faults(k)) <= round.Calls(n)
  {
    if k < n {
      CallsBegin(round, k, n - 1);
    }
  }

  /** A granted claim of the round is in the trace. */
  lemma {:induction false} AnsweredIsWon(round: Round, start: Store, origin: seq<Step>, k: nat, n: nat)
    requires k < n <= |round.prefixes| && round.Answered(start, origin, k)
    ensures WonSince(start, origin + round.Calls(n), |origin|, round.url, round.prefixes[k], round.ttl)
  {
    CallsBegin(round, k, n);
    var trace, at := origin + round.Calls(n), |origin + round.Before(k)|;
    assert trace[..at] == origin + round.Before(k);
    assert trace[at] == Claim(round.url, round.prefixes[k], round.ttl);
  }

  lemma {:induction false} AllAnsweredIsWon(round: Round, start: Store, origin: seq<Step>, n: nat, m: nat)
    requires n <= m <= |round.prefixes| && round.AllAnswered(start, origin, n)
    ensures WonAll(start, origin + round.Calls(m), |origin|, round.url, round.prefixes[..n], round.ttl)
  {
    forall s | s in round.prefixes[..n] ensures WonSince(start, origin + round.Calls(m), |origin|, round.url, s, round.ttl) {
      var k :| 0 <= k < n && round.prefixes[..n][k] == s;
      AnsweredIsWon(round, start, origin, k, m);
    }
  }

  lemma AnsweredOneMore(round: Round, start: Store, origin: seq<Step>, k: nat)
    requires k < |round.prefixes|
    ensures round.AllAnswered(start, origin, k + 1) <==> round.AllAnswered(start, origin, k) && round.Answered(start, origin, k)
  {
  }

  /** The steps of releasing the listed shards, one call each. */
  function Releases(url: Url, shards: seq<Shard>, env: Environment): seq<Step> {
    if shards == [] then []
    else
      var k := |shards| - 1;
      Releases(url, shards[..k], env) + env.others(k) + GaveUp(url, shards[k], env.faults(k))
  }

  /** The step, if any, that a release call leaves in the trace. */
  function GaveUp(url: Url, shard: Shard, fault: Fault): seq<Step> {
    if fault == NotSent then [] else [Release(url, shard)]
  }

  lemma {:induction false} OneMoreRelease(url: Url, shards: seq<Shard>, env: Environment, k: nat, origin: seq<Step>)
    requires k < |shards|
    ensures origin + Releases(url, shards[..k + 1], env) ==
              origin + Releases(url, shards[..k], env) + env.others(k) + GaveUp(url, shards[k], env.faults(k))
  {
    assert shards[..k + 1][..k] == shards[..k];
  }

  lemma GoneOneMore(before: Store, after: Store, shards: seq<Shard>, k: nat, url: Url)
    requires k < |shards| && Gone(before, shards[..k], url) && after.Get(shards[k]) != Some(url)
    requires forall s :: before.Get(s) != Some(url) ==> after.Get(s) != Some(url)
    ensures Gone(after, shards[..k + 1], url)
  {
    assert shards[..k + 1] == shards[..k] + [shards[k]];
  }

  lemma {:induction false} ReleasesContinue(url: Url, shards: seq<Shard>, env: Environment, origin: seq<Step>)
    requires Honest(env, url)
    ensures Continues(origin, origin + Releases(url, shards, env), url, shards)
  {
    if shards != [] {
      var k := |shards| - 1;
      ReleasesContinue(url, shards[..k], env, origin);
      assert AllForeign(env.others(k), url);
      OneMoreRelease(url, shards, env, k, origin);
      assert shards[..k + 1] == shards;
      var before := origin + Releases(url, shards[..k], env);
      ContinuesThrough(origin, origin, before, url, shards[..k], shards);
      var last := GaveUp(url, shards[k], env.faults(k));
      assert Continues(before, before + env.others(k) + last, url, [shards[k]]);
      ContinuesThrough(origin, before, before + env.others(k) + last, url, [shards[k]], shards);
    }
  }

  /** This worker's own steps from `from` on leave every live entry of another URL as it is. */
  ghost predicate OthersKept(start: Store, trace: seq<Step>, from: nat, url: Url) {
    forall i, s :: from <= i < |trace| && !Foreign(trace[i], url) && HeldByOther(Run(start, trace[..i]), s, url) ==>
      EntryKept(Run(start, trace[..i]), trace[i], s)
  }

  predicate HeldByOther(store: Store, s: Shard, url: Url) {
    store.Get(s).Some? && store.Get(s) != Some(url)
  }

  predicate EntryKept(store: Store, step: Step, s: Shard) {
    s in store.keys && s in Apply(store, step).keys && Apply(store, step).keys[s] == store.keys[s]
  }

  lemma OwnStepsKeepOthers(start: Store, trace: seq<Step>, from: nat, url: Url)
    ensures OthersKept(start, trace, from, url)
  {
    forall i, s | from <= i < |trace| && !Foreign(trace[i], url) && HeldByOther(Run(start, trace[..i]), s, url)
      ensures EntryKept(Run(start, trace[..i]), trace[i], s)
    {
      StepKeepsOthersEntries(Run(start, trace[..i]), trace[i], s);
    }
  }

  // ------------------------------------------------------------------
  // What a failed acquisition leaves behind
  // ------------------------------------------------------------------

  /** A claim of the shard was granted at or after step `from` and has not expired at the end. */
  ghost predicate ClaimStands(start: Store, trace: seq<Step>, from: nat, url: Url, shard: Shard, ttl: Seconds) {
    exists i :: from <= i < |trace| && trace[i] == Claim(url, shard, ttl) && GrantStands(start, trace, i, url, shard, ttl)
  }

  ghost predicate GrantStands(start: Store, trace: seq<Step>, i: nat, url: Url, shard: Shard, ttl: Seconds)
    requires i < |trace|
  {
    && ClaimLua(Run(start, trace[..i]), shard, url, ttl).1
    && Run(start, trace).now < Run(start, trace[..i]).now + ttl * MS
  }

  /** The shard showed the URL before step `from`, and that lease has not expired at the end. */
  ghost predicate HeldOver(start: Store, trace: seq<Step>, from: nat, url: Url, shard: Shard)
    requires from <= |trace|
  {
    var before := Run(start, trace[..from]);
    before.Get(shard) == Some(url) && Run(start, trace).now < before.keys[shard].expiresAt
  }

  /**
   The exact condition under which a shard still shows the URL after a failed
   acquisition whose releases worked: it was not claimed, and either it is the failed
   one, its reply was lost and the grant still stands, or no claim of it was made and
   it showed the URL all along.
   */
  ghost predicate LeftBehind(start: Store, trace: seq<Step>, from: nat, url: Url, ttl: Seconds,
                             claimed: seq<Shard>, failed: Shard, fault: Fault, s: Shard)
    requires from <= |trace|
  {
    && s !in claimed
    && if s == failed && fault != NotSent
       then fault == ReplyLost && ClaimStands(start, trace, from, url, s, ttl)
       else HeldOver(start, trace, from, url, s)
  }

  /** No claimed shard shows the URL, and the others show it exactly where it is left behind. */
  ghost predicate OnlyLeftBehind(start: Store, trace: seq<Step>, from: nat, url: Url, ttl: Seconds,
                                 prefixes: seq<Shard>, claimed: seq<Shard>, fault: Fault)
  {
    && from <= |trace| && |claimed| < |prefixes| && Gone(Run(start, trace), claimed, url)
    && forall s :: s in prefixes ==>
         (Run(start, trace).Get(s) == Some(url) <==>
          LeftBehind(start, trace, from, url, ttl, claimed, prefixes[|claimed|], fault, s))
  }

  /**
   A failed acquisition: `origin` is the trace before it, `before` the one before the
   failed claim, `others` what happened between, and `end` the trace after the releases.
   */
  datatype Attempt = Attempt(start: Store, origin: seq<Step>, before: seq<Step>, others: seq<Step>, end: seq<Step>,
                             url: Url, ttl: Seconds, claimed: seq<Shard>, failed: Shard, fault: Fault)
  {
    /** The trace after the failed claim. */
    function AfterClaim(): seq<Step> {
      before + others + Asked(url, failed, ttl, fault)
    }

    ghost predicate Valid() {
      && Continues(origin, before, url, claimed) && AllForeign(others, url)
      && Continues(AfterClaim(), end, url, claimed)
      && (fault == Fine ==> Run(start, AfterClaim()).Get(failed) != Some(url))
      && Gone(Run(start, end), claimed, url)
    }
  }

  lemma RunSplits(start: Store, a: seq<Step>, b: seq<Step>)
    requires a <= b
    ensures Run(start, b) == Run(Run(start, a), b[|a|..])
  {
    assert b == a + b[|a|..];
    RunConcat(start, a, b[|a|..]);
  }

  /** A shard this worker did not touch between two moments. */
  lemma UntouchedBetween(start: Store, a: seq<Step>, b: seq<Step>, url: Url, shards: seq<Shard>, s: Shard)
    requires Continues(a, b, url, shards) && s !in shards
    ensures Run(start, b).Get(s) == Some(url) <==>
              Run(start, a).Get(s) == Some(url) && Run(start, b).now < Run(start, a).keys[s].expiresAt
  {
    RunSplits(start, a, b);
    UntouchedUntilExpiry(Run(start, a), b[|a|..], url, s);
  }

  /** Up to the failed claim this worker touched the claimed shards only. */
  lemma UpToTheClaim(a: Attempt)
    requires a.Valid()
    ensures Continues(a.origin, a.before + a.others, a.url, a.claimed)
    ensures a.fault == NotSent ==> a.AfterClaim() == a.before + a.others
    ensures a.fault != NotSent ==> a.AfterClaim() == a.before + a.others + [Claim(a.url, a.failed, a.ttl)]
  {
    var t := a.before + a.others;
    forall i | |a.origin| <= i < |t| ensures Foreign(t[i], a.url) || t[i].shard in a.claimed {
      assert i < |a.before| ==> t[i] == a.before[i];
    }
  }

  lemma OtherShardLeftBehind(a: Attempt, s: Shard)
    requires a.Valid() && s !in a.claimed && (s != a.failed || a.fault == NotSent)
    ensures a.origin <= a.end
    ensures Run(a.start, a.end).Get(s) == Some(a.url) <==> HeldOver(a.start, a.end, |a.origin|, a.url, s)
  {
    UpToTheClaim(a);
    if a.fault == NotSent {
      ContinuesThrough(a.origin, a.AfterClaim(), a.end, a.url, a.claimed, a.claimed);
      UntouchedBetween(a.start, a.origin, a.end, a.url, a.claimed, s);
    } else {
      ContinuesFurther(a.origin, a.before + a.others, a.AfterClaim(), a.url, a.claimed, a.failed);
      ContinuesThrough(a.origin, a.AfterClaim(), a.end, a.url, a.claimed, a.claimed + [a.failed]);
      UntouchedBetween(a.start, a.origin, a.end, a.url, a.claimed + [a.failed], s);
    }
    assert a.end[..|a.origin|] == a.origin;
  }

  lemma FailedShardLeftBehind(a: Attempt)
    requires a.Valid() && a.failed !in a.claimed && a.fault == ReplyLost
    ensures a.origin <= a.end
    ensures Run(a.start, a.end).Get(a.failed) == Some(a.url) <==>
              ClaimStands(a.start, a.end, |a.origin|, a.url, a.failed, a.ttl)
  {
    UpToTheClaim(a);
    var t := a.before + a.others;
    var claim := Claim(a.url, a.failed, a.ttl);
    assert a.AfterClaim()[..|t|] == t && a.end[..|t|] == t && a.end[|t|] == claim;
    UntouchedBetween(a.start, a.AfterClaim(), a.end, a.url, a.claimed, a.failed);
    assert Run(a.start, a.AfterClaim()) == Apply(Run(a.start, t), claim);
    OnlyOneClaim(a);
    assert Run(a.start, a.end).Get(a.failed) == Some(a.url) <==>
             GrantStands(a.start, a.end, |t|, a.url, a.failed, a.ttl);
  }

  /** The failed shard was asked for once. */
  lemma OnlyOneClaim(a: Attempt)
    requires a.Valid() && a.failed !in a.claimed && a.fault == ReplyLost
    ensures a.origin <= a.end
    ensures forall i :: |a.origin| <= i < |a.end| && a.end[i] == Claim(a.url, a.failed, a.ttl) ==> i == |a.before + a.others|
  {
    UpToTheClaim(a);
    var t := a.before + a.others;
    assert forall i :: 0 <= i < |t| ==> a.end[i] == t[i];
  }

  lemma LeftBehindExactly(a: Attempt, prefixes: seq<Shard>)
    requires a.Valid() && |a.claimed| < |prefixes| && prefixes[|a.claimed|] == a.failed
    ensures OnlyLeftBehind(a.start, a.end, |a.origin|, a.url, a.ttl, prefixes, a.claimed, a.fault)
    ensures Gone(Run(a.start, a.origin), prefixes, a.url) && a.fault != ReplyLost ==> Gone(Run(a.start, a.end), prefixes, a.url)
  {
    UpToTheClaim(a);
    assert a.end[..|a.origin|] == a.origin;
    forall s | s in prefixes
      ensures Run(a.start, a.end).Get(s) == Some(a.url) <==>
                LeftBehind(a.start, a.end, |a.origin|, a.url, a.ttl, a.claimed, a.failed, a.fault, s)
    {
      ShardLeftBehind(a, s);
    }
  }

  lemma ShardLeftBehind(a: Attempt, s: Shard)
    requires a.Valid()
    ensures a.origin <= a.end
    ensures Run(a.start, a.end).Get(s) == Some(a.url) <==>
              LeftBehind(a.start, a.end, |a.origin|, a.url, a.ttl, a.claimed, a.failed, a.fault, s)
  {
    UpToTheClaim(a);
    if s !in a.claimed {
      if s != a.failed || a.fault == NotSent {
        OtherShardLeftBehind(a, s);
      } else if a.fault == ReplyLost {
        FailedShardLeftBehind(a);
      } else {
        UntouchedBetween(a.start, a.AfterClaim(), a.end, a.url, a.claimed, s);
      }
    }
  }

  class ShardLease {
    const registry: ShardRegistry
    const prefixes: seq<Shard>
    const url: Url
    const ttl: Seconds
    var healthy: bool

    constructor (registry: ShardRegistry, prefixes: seq<Shard>, url: Url, ttl: Seconds)
      ensures this.registry == registry && this.prefixes == prefixes
      ensures this.url == url && this.ttl == ttl && !healthy
    {
      this.registry, this.prefixes, this.url, this.ttl, healthy := registry, prefixes, url, ttl, false;
    }

    function RoundOf(env: Environment): Round { Round(url, ttl, prefixes, env) }

    /** The others take their turn, then this worker makes the `k`-th call of a round begun after `origin`. */
    method ClaimOne(env: Environment, k: nat, ghost origin: seq<Step>) returns (reply: Reply)
      requires registry.Valid() && k < |prefixes| && registry.trace == origin + RoundOf(env).Calls(k)
      modifies registry
      ensures registry.Valid() && registry.start == old(registry.start)
      ensures registry.trace == origin + RoundOf(env).Calls(k + 1)
      ensures reply.Ok? <==> env.faults(k) == Fine
      ensures reply == Ok(true) <==> RoundOf(env).Answered(registry.start, origin, k)
      ensures reply == Ok(false) ==> registry.store.Get(prefixes[k]) != Some(url)
    {
      OneMoreCall(RoundOf(env), origin, k);
      registry.Interfere(env.others(k));
      reply := registry.ClaimShard(prefixes[k], url, ttl, env.faults(k));
    }

    /**
     Claims every shard, all or nothing. `claimed` lists what had been claimed when
     the loop ended; `undo` is the environment of the release calls.
     */
    method AcquireAll(env: Environment, undo: Environment) returns (outcome: Acquired, claimed: seq<Shard>)
      requires registry.Valid() && Honest(env, url) && Honest(undo, url)
      modifies this, registry
      ensures registry.Valid() && registry.start == old(registry.start)
      ensures Continues(old(registry.trace), registry.trace, url, prefixes)
      ensures claimed <= prefixes
      ensures WonAll(registry.start, registry.trace, |old(registry.trace)|, url, claimed, ttl)
      ensures outcome == Held ==> claimed == prefixes && healthy
      ensures outcome != Held ==> claimed < prefixes && healthy == old(healthy)
      ensures outcome.Conflict? ==> outcome.shard == prefixes[|claimed|] && outcome.owner != Some(url)
      ensures RoundOf(env).AllAnswered(registry.start, old(registry.trace), |claimed|)
      ensures outcome == Held ==> registry.trace == old(registry.trace) + RoundOf(env).All()
      ensures outcome != Held ==>
                && !RoundOf(env).Answered(registry.start, old(registry.trace), |claimed|)
                && registry.trace == old(registry.trace) + RoundOf(env).Calls(|claimed| + 1) + Releases(url, claimed, undo)
                && (outcome.Conflict? <==> env.faults(|claimed|) == Fine)
      ensures OthersKept(registry.start, registry.trace, |old(registry.trace)|, url)
      ensures outcome != Held && (forall k: nat :: undo.faults(k) == Fine) ==>
                && OnlyLeftBehind(registry.start, registry.trace, |old(registry.trace)|, url, ttl,
                                  prefixes, claimed, env.faults(|claimed|))
                && (Gone(old(registry.store), prefixes, url) && env.faults(|claimed|) != ReplyLost ==>
                      Gone(registry.store, prefixes, url))
    {
      ghost var origin, round := registry.trace, RoundOf(env);
      var n, reply := ClaimEach(env);
      claimed := prefixes[..n];
      if reply == Ok(true) {
        AllAnsweredIsWon(round, registry.start, origin, n, n);
        CallsContinue(round, origin, n);
        healthy := true;
        outcome := Held;
      } else {
        // the error names whoever `GET` shows now
        outcome := if reply.Ok? then Conflict(prefixes[n], registry.store.Get(prefixes[n])) else Failed;
        Abandon(n, undo, env, origin);
      }
      OwnStepsKeepOthers(registry.start, registry.trace, |origin|, url);
    }

    /** The claims one after the other, up to the first that is not granted. */
    method ClaimEach(env: Environment) returns (n: nat, reply: Reply)
      requires registry.Valid()
      modifies registry
      ensures registry.Valid() && registry.start == old(registry.start)
      ensures n <= |prefixes| && (n == |prefixes| <==> reply == Ok(true))
      ensures RoundOf(env).AllAnswered(registry.start, old(registry.trace), n)
      ensures n == |prefixes| ==> registry.trace == old(registry.trace) + RoundOf(env).All()
      ensures n < |prefixes| ==>
                && !RoundOf(env).Answered(registry.start, old(registry.trace), n)
                && registry.trace == old(registry.trace) + RoundOf(env).Calls(n + 1)
                && (reply.Ok? <==> env.faults(n) == Fine)
                && (reply.Ok? ==> registry.store.Get(prefixes[n]) != Some(url))
    {
      n, reply := 0, Ok(true);
      ghost var origin := registry.trace;
      while n < |prefixes|
        invariant n <= |prefixes| && reply == Ok(true)
        invariant registry.Valid() && registry.start == old(registry.start)
        invariant registry.trace == origin + RoundOf(env).Calls(n)
        invariant RoundOf(env).AllAnswered(registry.start, origin, n)
      {
        reply := ClaimOne(env, n, origin);
        if reply != Ok(true) {
          return;
        }
        AnsweredOneMore(RoundOf(env), registry.start, origin, n);
        n := n + 1;
      }
    }

    /** Releases what an acquisition had claimed that began after `origin` and failed at its `n`-th call. */
    method Abandon(n: nat, undo: Environment, ghost env: Environment, ghost origin: seq<Step>)
      requires registry.Valid() && Honest(env, url) && Honest(undo, url) && n < |prefixes|
      requires registry.trace == origin + RoundOf(env).Calls(n + 1)
      requires RoundOf(env).AllAnswered(registry.start, origin, n)
      requires env.faults(n) == Fine ==> registry.store.Get(prefixes[n]) != Some(url)
      modifies registry
      ensures registry.Valid() && registry.start == old(registry.start)
      ensures registry.trace == old(registry.trace) + Releases(url, prefixes[..n], undo)
      ensures Continues(origin, registry.trace, url, prefixes)
      ensures WonAll(registry.start, registry.trace, |origin|, url, prefixes[..n], ttl)
      ensures (forall k: nat :: undo.faults(k) == Fine) ==>
                && OnlyLeftBehind(registry.start, registry.trace, |origin|, url, ttl, prefixes, prefixes[..n], env.faults(n))
                && (Gone(Run(registry.start, origin), prefixes, url) && env.faults(n) != ReplyLost ==>
                      Gone(registry.store, prefixes, url))
    {
      ghost var trace, round, claimed := registry.trace, RoundOf(env), prefixes[..n];
      Release(prefixes[..n], undo);
      AllAnsweredIsWon(round, registry.start, origin, n, n + 1);
      WonStays(registry.start, trace, registry.trace, |origin|, url, claimed, ttl);
      CallsContinue(round, origin, n + 1);
      ContinuesThrough(origin, origin, trace, url, prefixes[..n + 1], prefixes);
      ContinuesThrough(origin, trace, registry.trace, url, claimed, prefixes);
      if forall k: nat :: undo.faults(k) == Fine {
        CallsContinue(round, origin, n);
        OneMoreCall(round, origin, n);
        ghost var a := Attempt(registry.start, origin, origin + round.Calls(n), env.others(n), registry.trace, url, ttl,
                               claimed, prefixes[n], env.faults(n));
        LeftBehindExactly(a, prefixes);
      }
    }

    /** The others take their turn, then this worker makes the `k`-th release call, begun after `origin`. */
    method ReleaseOne(shards: seq<Shard>, env: Environment, k: nat, ghost origin: seq<Step>)
      requires registry.Valid() && Honest(env, url) && k < |shards|
      requires registry.trace == origin + Releases(url, shards[..k], env)
      modifies registry
      ensures registry.Valid() && registry.start == old(registry.start)
      ensures registry.trace == origin + Releases(url, shards[..k + 1], env)
      ensures forall s :: old(registry.store).Get(s) != Some(url) ==> registry.store.Get(s) != Some(url)
      ensures env.faults(k) == Fine ==> registry.store.Get(shards[k]) != Some(url)
    {
      ghost var before := registry.store;
      OneMoreRelease(url, shards, env, k, origin);
      registry.Interfere(env.others(k));
      forall s | before.Get(s) != Some(url) ensures registry.store.Get(s) != Some(url) {
        ForeignRunNeverGivesUrl(before, env.others(k), url, s);
      }
      var _ := registry.ReleaseShard(shards[k], url, env.faults(k));
    }

    /** Gives up the listed shards one by one; failures are only logged. */
    method Release(shards: seq<Shard>, env: Environment)
      requires registry.Valid() && Honest(env, url)
      modifies registry
      ensures registry.Valid() && registry.start == old(registry.start)
      ensures Continues(old(registry.trace), registry.trace, url, shards)
      ensures (forall k: nat :: env.faults(k) == Fine) ==> Gone(registry.store, shards, url)
      ensures registry.trace == old(registry.trace) + Releases(url, shards, env)
    {
      var k := 0;
      ghost var origin := registry.trace;
      while k < |shards|
        invariant 0 <= k <= |shards|
        invariant registry.Valid() && registry.start == old(registry.start)
        invariant registry.trace == origin + Releases(url, shards[..k], env)
        invariant (forall i: nat :: env.faults(i) == Fine) ==> Gone(registry.store, shards[..k], url)
      {
        ghost var before := registry.store;
        ReleaseOne(shards, env, k, origin);
        if forall i: nat :: env.faults(i) == Fine {
          GoneOneMore(before, registry.store, shards, k, url);
        }
        k := k + 1;
      }
      assert shards[..k] == shards;
      ReleasesContinue(url, shards, env, origin);
    }

    /**
     One renewal round: every shard is asked for, in order, whatever the answers were
     before. True, and `healthy`, exactly if every call was answered and granted.
     */
    method RefreshOnce(env: Environment) returns (allHeld: bool)
      requires registry.Valid() && Honest(env, url)
      modifies this, registry
      ensures registry.Valid() && registry.start == old(registry.start)
      ensures registry.trace == old(registry.trace) + RoundOf(env).All()
      ensures allHeld <==> RoundOf(env).AllAnswered(registry.start, old(registry.trace), |prefixes|)
      ensures Continues(old(registry.trace), registry.trace, url, prefixes)
      ensures NoRelease(registry.trace, |old(registry.trace)|, url)
      ensures healthy == allHeld
      ensures allHeld ==> WonAll(registry.start, registry.trace, |old(registry.trace)|, url, prefixes, ttl)
    {
      allHeld := true;
      var k := 0;
      ghost var origin, round := registry.trace, RoundOf(env);
      while k < |prefixes|
        invariant 0 <= k <= |prefixes|
        invariant registry.Valid() && registry.start == old(registry.start)
        invariant registry.trace == origin + round.Calls(k)
        invariant allHeld <==> round.AllAnswered(registry.start, origin, k)
      {
        var reply := ClaimOne(env, k, origin);
        AnsweredOneMore(round, registry.start, origin, k);
        if reply != Ok(true) {
          allHeld := false;
        }
        k := k + 1;
      }
      assert prefixes[..k] == prefixes;
      CallsContinue(round, origin, k);
      if allHeld {
        AllAnsweredIsWon(round, registry.start, origin, k, k);
      }
      healthy := allHeld;
    }

    /** The refresher: one round after the other. */
    method RefreshRounds(envs: seq<Environment>)
      requires registry.Valid() && forall i :: 0 <= i < |envs| ==> Honest(envs[i], url)
      modifies this, registry
      ensures registry.Valid() && registry.start == old(registry.start)
      ensures registry.trace == old(registry.trace) + RoundSteps(url, ttl, prefixes, envs)
      ensures registry.store == Run(old(registry.store), RoundSteps(url, ttl, prefixes, envs))
    {
      var i := 0;
      ghost var origin := registry.trace;
      while i < |envs|
        invariant 0 <= i <= |envs|
        invariant registry.Valid() && registry.start == old(registry.start)
        invariant registry.trace == origin + RoundSteps(url, ttl, prefixes, envs[..i])
      {
        var _ := RefreshOnce(envs[i]);
        OneMoreRound(url, ttl, prefixes, envs, i, origin);
        i := i + 1;
      }
      assert envs[..i] == envs;
      RunConcat(registry.start, origin, RoundSteps(url, ttl, prefixes, envs));
    }

    /** Gives every shard up at shutdown. */
    method ReleaseAll(env: Environment)
      requires registry.Valid() && Honest(env, url)
      modifies this, registry
      ensures registry.Valid() && registry.start == old(registry.start) && !healthy
      ensures Continues(old(registry.trace), registry.trace, url, prefixes)
      ensures (forall k: nat :: env.faults(k) == Fine) ==> Gone(registry.store, prefixes, url)
      ensures registry.trace == old(registry.trace) + Releases(url, prefixes, env)
    {
      healthy := false;
      Release(prefixes, env);
    }
  }

  /**
   A claim whose reply was lost, of a free key or an own one: the shard, which is not
   among those released, shows the URL until the lease expires and not after.
   */
  lemma LostReplyLeavesTheFailedShard(st: Store, more: seq<Step>, shard: Shard, url: Url, ttl: Seconds)
    requires st.Get(shard) in {None, Some(url)} && HandsOff(more, url, shard)
    ensures var after := Run(Apply(st, Claim(url, shard, ttl)), more);
            after.Get(shard) == Some(url) <==> after.now < st.now + ttl * MS
  {
    UntouchedUntilExpiry(Apply(st, Claim(url, shard, ttl)), more, url, shard);
  }

  const RESTARTED := Store(0, map["tkrw" := Entry("wss://other", 30_000), "tkrx" := Entry("wss://me", 30_000)])

  /**
   Without any fault, a worker restarted under its old URL within the TTL that meets a
   conflict leaves the entry of its former life on a shard it never came to.
   */
  lemma RestartLeavesAnOldEntry()
    ensures var me := "wss://me";
            var claimed := Apply(RESTARTED, Claim(me, "tkrt", 30));
            var after := Apply(Apply(claimed, Claim(me, "tkrw", 30)), Release(me, "tkrt"));
            && ClaimLua(RESTARTED, "tkrt", me, 30).1 && !ClaimLua(claimed, "tkrw", me, 30).1
            && after.Get("tkrt") == None && after.Get("tkrw") == Some("wss://other") && after.Get("tkrx") == Some(me)
  {
  }

  // ------------------------------------------------------------------
  // The refresher keeps the lease
  // ------------------------------------------------------------------

  /** The steps of successive rounds. */
  function RoundSteps(url: Url, ttl: Seconds, prefixes: seq<Shard>, envs: seq<Environment>): seq<Step> {
    if envs == [] then []
    else RoundSteps(url, ttl, prefixes, envs[..|envs| - 1]) + Round(url, ttl, prefixes, envs[|envs| - 1]).All()
  }

  lemma {:induction false} OneMoreRound(url: Url, ttl: Seconds, prefixes: seq<Shard>, envs: seq<Environment>, i: nat, origin: seq<Step>)
    requires i < |envs|
    ensures origin + RoundSteps(url, ttl, prefixes, envs[..i + 1]) ==
              origin + RoundSteps(url, ttl, prefixes, envs[..i]) + Round(url, ttl, prefixes, envs[i]).All()
  {
    assert envs[..i + 1][..i] == envs[..i];
  }

  lemma {:induction false} RoundsBegin(url: Url, ttl: Seconds, prefixes: seq<Shard>, envs: seq<Environment>, r: nat)
    requires r <= |envs|
    ensures RoundSteps(url, ttl, prefixes, envs[..r]) <= RoundSteps(url, ttl, prefixes, envs)
    decreases |envs|
  {
    if r == |envs| {
      assert envs[..r] == envs;
    } else {
      var init := envs[..|envs| - 1];
      assert init[..r] == envs[..r];
      RoundsBegin(url, ttl, prefixes, init, r);
    }
  }

  /** What has happened when round `r`, counted from zero, asks for shard `p`. */
  function BeforeAsking(url: Url, ttl: Seconds, prefixes: seq<Shard>, envs: seq<Environment>, r: nat, p: nat): seq<Step>
    requires r < |envs| && p < |prefixes|
  {
    RoundSteps(url, ttl, prefixes, envs[..r]) + Round(url, ttl, prefixes, envs[r]).Before(p)
  }

  /** The trace of all rounds passes through that moment, and goes on with the claim if it is sent. */
  lemma {:induction false} AsksThere(url: Url, ttl: Seconds, prefixes: seq<Shard>, envs: seq<Environment>, r: nat, p: nat)
    requires r < |envs| && p < |prefixes|
    ensures var steps, at := RoundSteps(url, ttl, prefixes, envs), BeforeAsking(url, ttl, prefixes, envs, r, p);
            at <= steps && (envs[r].faults(p) != NotSent ==> at + [Claim(url, prefixes[p], ttl)] <= steps)
  {
    var round := Round(url, ttl, prefixes, envs[r]);
    assert envs[..r + 1][..r] == envs[..r] && envs[..r + 1][r] == envs[r];
    RoundsBegin(url, ttl, prefixes, envs, r + 1);
    CallsBegin(round, p, |prefixes|);
    var done := RoundSteps(url, ttl, prefixes, envs[..r]);
    BehindTheSame(done, round.Before(p) + Asked(url, prefixes[p], ttl, envs[r].faults(p)), round.All());
    assert done + (round.Before(p) + Asked(url, prefixes[p], ttl, envs[r].faults(p)))
             == done + round.Before(p) + Asked(url, prefixes[p], ttl, envs[r].faults(p));
  }

  lemma BehindTheSame(a: seq<Step>, b: seq<Step>, c: seq<Step>)
    requires b <= c
    ensures a + b <= a + c
  {
  }

  /**
   The rounds of one shard are on schedule: each asks at or after its tick and before its
   deadline, the time is not past the deadline of the round after the last, and of two
   successive rounds at least one reaches Redis, whether or not its reply comes back.
   */
  ghost predicate OnSchedule(st: Store, url: Url, ttl: Seconds, prefixes: seq<Shard>, envs: seq<Environment>, p: nat, lead: nat)
    requires p < |prefixes|
  {
    var first := st.now + lead;
    && (forall r :: 0 <= r < |envs| ==>
          TickAt(first, ttl, r + 1) <= Run(st, BeforeAsking(url, ttl, prefixes, envs, r, p)).now < Deadline(first, lead, ttl, r + 1))
    && Run(st, RoundSteps(url, ttl, prefixes, envs)).now < Deadline(first, lead, ttl, |envs| + 1)
    && (forall r :: 0 <= r < |envs| - 1 ==> envs[r].faults(p) != NotSent || envs[r + 1].faults(p) != NotSent)
  }

  /** A round that reaches Redis on schedule has landed for every later moment of the trace. */
  lemma {:induction false} SentRoundLands(st: Store, url: Url, ttl: Seconds, prefixes: seq<Shard>, envs: seq<Environment>, p: nat,
                                          lead: nat, r: nat, i: nat)
    requires p < |prefixes| && OnSchedule(st, url, ttl, prefixes, envs, p, lead) && r < |envs| && envs[r].faults(p) != NotSent
    requires i <= |RoundSteps(url, ttl, prefixes, envs)|
    requires Deadline(st.now + lead, lead, ttl, r + 1) <= Run(st, RoundSteps(url, ttl, prefixes, envs)[..i]).now
    ensures Landed(st, RoundSteps(url, ttl, prefixes, envs)[..i], Claim(url, prefixes[p], ttl), st.now + lead, lead, r + 1)
  {
    var steps, at := RoundSteps(url, ttl, prefixes, envs), BeforeAsking(url, ttl, prefixes, envs, r, p);
    AsksThere(url, ttl, prefixes, envs, r, p);
    var j := |at|;
    assert steps[..j] == at && steps[j] == Claim(url, prefixes[p], ttl);
    if i <= j {
      RunTimesAreOrdered(st, steps, i, j);
      assert false;
    }
    assert steps[..i][..j] == at && steps[..i][j] == Claim(url, prefixes[p], ttl);
  }

  lemma DeadlinesGrow(first: int, lead: nat, ttl: Seconds, a: int, b: int)
    requires a <= b
    ensures Deadline(first, lead, ttl, a) <= Deadline(first, lead, ttl, b)
  {
    var p := Period(ttl) * MS;
    assert (b - a) * p >= 0;
    assert b * p == a * p + (b - a) * p;
  }

  /** Rounds on schedule never fail twice in a row. */
  lemma {:induction false} RoundsNeverFailTwice(st: Store, url: Url, ttl: Seconds, prefixes: seq<Shard>, envs: seq<Environment>,
                                                p: nat, lead: nat, i: nat, k: int)
    requires p < |prefixes| && OnSchedule(st, url, ttl, prefixes, envs, p, lead) && k >= 1
    requires i <= |RoundSteps(url, ttl, prefixes, envs)|
    ensures OneOfTwoLanded(st, RoundSteps(url, ttl, prefixes, envs)[..i], Claim(url, prefixes[p], ttl), st.now + lead, lead, k)
  {
    var steps, first := RoundSteps(url, ttl, prefixes, envs), st.now + lead;
    var now := Run(st, steps[..i]).now;
    if Deadline(first, lead, ttl, k + 1) <= now {
      RunTimesAreOrdered(st, steps, i, |steps|);
      assert steps[..|steps|] == steps;
      if k >= |envs| {
        DeadlinesGrow(first, lead, ttl, |envs| + 1, k + 1);
      }
      DeadlinesGrow(first, lead, ttl, k, k + 1);
      if envs[k - 1].faults(p) != NotSent {
        SentRoundLands(st, url, ttl, prefixes, envs, p, lead, k - 1, i);
      } else {
        SentRoundLands(st, url, ttl, prefixes, envs, p, lead, k, i);
      }
    }
  }

  lemma {:induction false} RoundsOnlyRenew(url: Url, ttl: Seconds, prefixes: seq<Shard>, envs: seq<Environment>, p: nat)
    requires p < |prefixes| && forall r :: 0 <= r < |envs| ==> Honest(envs[r], url)
    ensures OnlyRenews(RoundSteps(url, ttl, prefixes, envs), Claim(url, prefixes[p], ttl))
  {
    if envs != [] {
      var n := |envs| - 1;
      RoundsOnlyRenew(url, ttl, prefixes, envs[..n], p);
      CallsOnlyClaim(Round(url, ttl, prefixes, envs[n]), |prefixes|);
    }
  }

  /**
   The refresher keeps the lease: after an acquisition, rounds on schedule leave this
   worker's URL on the shard at every instant of the run, whatever the others do.
   */
  lemma {:induction false} RefresherKeepsTheLease(st: Store, url: Url, ttl: Seconds, prefixes: seq<Shard>, envs: seq<Environment>,
                                                  p: nat, lead: nat, i: nat)
    requires p < |prefixes| && forall r :: 0 <= r < |envs| ==> Honest(envs[r], url)
    requires prefixes[p] in st.keys && st.keys[prefixes[p]] == Entry(url, st.now + ttl * MS)
    requires OnSchedule(st, url, ttl, prefixes, envs, p, lead)
    requires i <= |RoundSteps(url, ttl, prefixes, envs)|
    ensures Run(st, RoundSteps(url, ttl, prefixes, envs)[..i]).Get(prefixes[p]) == Some(url)
  {
    var steps, own := RoundSteps(url, ttl, prefixes, envs), Claim(url, prefixes[p], ttl);
    RoundsOnlyRenew(url, ttl, prefixes, envs, p);
    BeginningOnlyRenews(steps, own, i);
    RoundsKeepSchedule(st, url, ttl, prefixes, envs, p, lead, i);
    LeaseContinuity(st, steps[..i], own, lead);
  }

  lemma BeginningOnlyRenews(steps: seq<Step>, own: Step, i: nat)
    requires own.Claim? && OnlyRenews(steps, own) && i <= |steps|
    ensures OnlyRenews(steps[..i], own)
  {
  }

  lemma {:induction false} RoundsKeepSchedule(st: Store, url: Url, ttl: Seconds, prefixes: seq<Shard>, envs: seq<Environment>,
                                              p: nat, lead: nat, i: nat)
    requires p < |prefixes| && OnSchedule(st, url, ttl, prefixes, envs, p, lead)
    requires i <= |RoundSteps(url, ttl, prefixes, envs)|
    ensures NoTwoRoundsFail(st, RoundSteps(url, ttl, prefixes, envs)[..i], Claim(url, prefixes[p], ttl), st.now + lead, lead)
  {
    var steps, own, first := RoundSteps(url, ttl, prefixes, envs), Claim(url, prefixes[p], ttl), st.now + lead;
    var part := steps[..i];
    forall j, k: int | 0 <= j <= |part| && k >= 1 ensures OneOfTwoLanded(st, part[..j], own, first, lead, k) {
      assert part[..j] == steps[..j];
      RoundsNeverFailTwice(st, url, ttl, prefixes, envs, p, lead, j, k);
    }
  }
}
