/**
 Publishing an alert to its shards (crates/api-coordinator/src/services/alert_dispatch_service.rs):
 a scheduler that keeps at most sixteen publishes in flight and takes their results in
 whatever order they finish, the partition into published and failed shards, and the
 sorted summary.
 */
module Dispatch {
  import opened Options
  import opened Texts
  import opened Sequences

  const MAX_PARALLEL_SHARDS: nat := 16

  // ------------------------------------------------------------------
  // The scheduler, for every order of starts and completions
  // ------------------------------------------------------------------

  /** Items not yet started, items in flight, and what has come back. */
  datatype Pool<T(==), R(==)> = Pool(waiting: seq<T>, inFlight: seq<T>, done: seq<(T, R)>)

  function Fresh<T, R>(targets: seq<T>): Pool<T, R> {
    Pool(targets, [], [])
  }

  datatype PoolEvent<R> = Start | Finish(which: nat, result: R)

  function Remove<T>(s: seq<T>, k: nat): seq<T>
    requires k < |s|
  {
    s[..k] + s[k + 1..]
  }

  /** One scheduling step; an event that is not possible changes nothing. */
  function PoolStep<T, R>(p: Pool<T, R>, e: PoolEvent<R>, limit: nat): Pool<T, R> {
    match e
    case Start =>
      if p.waiting == [] || |p.inFlight| >= limit then p
      else Pool(p.waiting[1..], p.inFlight + [p.waiting[0]], p.done)
    case Finish(k, r) =>
      if k >= |p.inFlight| then p
      else Pool(p.waiting, Remove(p.inFlight, k), p.done + [(p.inFlight[k], r)])
  }

  function PoolRun<T, R>(p: Pool<T, R>, es: seq<PoolEvent<R>>, limit: nat): Pool<T, R> {
    if es == [] then p else PoolStep(PoolRun(p, es[..|es| - 1], limit), es[|es| - 1], limit)
  }

  function Items<T, R>(done: seq<(T, R)>): (s: seq<T>)
    ensures |s| == |done|
  {
    if done == [] then [] else Items(done[..|done| - 1]) + [done[|done| - 1].0]
  }

  /** Every item is in exactly one of the three places, and few are in flight. */
  ghost predicate Accounted<T, R>(p: Pool<T, R>, targets: seq<T>, limit: nat) {
    && |p.inFlight| <= limit
    && multiset(p.waiting) + multiset(p.inFlight) + multiset(Items(p.done)) == multiset(targets)
  }

  lemma RemoveOne<T>(s: seq<T>, k: nat)
    requires k < |s|
    ensures multiset(Remove(s, k)) + multiset{s[k]} == multiset(s)
  {
    assert s == s[..k] + ([s[k]] + s[k + 1..]);
  }

  lemma {:induction false} StartAccounts<T, R>(p: Pool<T, R>, targets: seq<T>, limit: nat)
    requires Accounted(p, targets, limit)
    ensures Accounted(PoolStep(p, Start, limit), targets, limit)
  {
    if p.waiting != [] && |p.inFlight| < limit {
      assert p.waiting == [p.waiting[0]] + p.waiting[1..];
    }
  }

  lemma {:induction false} FinishAccounts<T, R>(p: Pool<T, R>, which: nat, result: R, targets: seq<T>, limit: nat)
    requires Accounted(p, targets, limit)
    ensures Accounted(PoolStep(p, Finish(which, result), limit), targets, limit)
  {
    if which < |p.inFlight| {
      var item := p.inFlight[which];
      RemoveOne(p.inFlight, which);
      assert (p.done + [(item, result)])[..|p.done|] == p.done;
      assert multiset(Items(p.done) + [item]) == multiset(Items(p.done)) + multiset{item};
    }
  }

  lemma {:induction false} StepAccounts<T, R>(p: Pool<T, R>, e: PoolEvent<R>, targets: seq<T>, limit: nat)
    requires Accounted(p, targets, limit)
    ensures Accounted(PoolStep(p, e, limit), targets, limit)
  {
    match e {
      case Start => StartAccounts(p, targets, limit);
      case Finish(which, result) => FinishAccounts(p, which, result, targets, limit);
    }
  }

  /** In every run at most `limit` are in flight and nothing is lost or duplicated. */
  lemma {:induction false} SchedulerLosesNothing<T, R>(targets: seq<T>, es: seq<PoolEvent<R>>, limit: nat)
    ensures var p := PoolRun(Fresh<T, R>(targets), es, limit);
            && Accounted(p, targets, limit)
            && (p.waiting == [] && p.inFlight == [] ==> multiset(Items(p.done)) == multiset(targets))
  {
    if es != [] {
      SchedulerLosesNothing<T, R>(targets, es[..|es| - 1], limit);
      StepAccounts(PoolRun(Fresh<T, R>(targets), es[..|es| - 1], limit), es[|es| - 1], targets, limit);
    }
  }

  /** What the work yields for each item. */
  ghost predicate Worked<T(!new), R(!new)>(done: seq<(T, R)>, work: T -> R) {
    forall i :: 0 <= i < |done| ==> done[i].1 == work(done[i].0)
  }

  /** Of `n` items as many as possible were in flight together, up to sixteen. */
  ghost predicate Busy<T, R>(p: Pool<T, R>, n: nat, peak: nat) {
    && |p.inFlight| <= peak <= 16
    && (p.done == [] ==> |p.waiting| + |p.inFlight| == n && peak == |p.inFlight|)
    && (p.done != [] ==> peak == (if n < 16 then n else 16) && (n < 16 ==> p.waiting == []))
  }

  /** Starting while there is room, and finishing only when there is none or nothing waits. */
  lemma BusyStays<T, R>(p: Pool<T, R>, e: PoolEvent<R>, n: nat, peak: nat)
    requires Busy(p, n, peak)
    requires if p.waiting == [] || |p.inFlight| == 16 then e.Finish? && e.which < |p.inFlight| else e.Start?
    ensures var after := PoolStep(p, e, 16);
            Busy(after, n, if |after.inFlight| > peak then |after.inFlight| else peak)
  {
  }

  /**
   `buffer_unordered` driven to the end: start while there is room, then take whichever
   of the running ones finishes next. `order` decides that; `peak` is the largest
   number that were ever in flight together.
   */
  method RunAll<T(==, !new), R(==, !new)>(items: seq<T>, work: T -> R, order: nat -> nat)
    returns (done: seq<(T, R)>, peak: nat)
    ensures multiset(Items(done)) == multiset(items)
    ensures Worked(done, work)
    ensures peak == if |items| < 16 then |items| else 16
  {
    var p := Fresh<T, R>(items);
    ghost var es: seq<PoolEvent<R>> := [];
    peak := 0;
    while p.waiting != [] || p.inFlight != []
      invariant p == PoolRun(Fresh(items), es, MAX_PARALLEL_SHARDS)
      invariant Worked(p.done, work)
      invariant Busy(p, |items|, peak)
      decreases |p.waiting|, |p.inFlight|
    {
      var e := Start;
      if p.waiting == [] || |p.inFlight| == MAX_PARALLEL_SHARDS {
        var k := order(|p.done|) % |p.inFlight|;
        e := Finish(k, work(p.inFlight[k]));
      }
      BusyStays(p, e, |items|, peak);
      p := PoolStep(p, e, MAX_PARALLEL_SHARDS);
      peak := if |p.inFlight| > peak then |p.inFlight| else peak;
      assert (es + [e])[..|es|] == es;
      es := es + [e];
    }
    SchedulerLosesNothing<T, R>(items, es, MAX_PARALLEL_SHARDS);
    done := p.done;
  }

  // ------------------------------------------------------------------
  // Published and failed
  // ------------------------------------------------------------------

  /** Each item is in exactly one of two lists. */
  ghost predicate Split<T>(a: seq<T>, b: seq<T>, items: seq<T>) {
    multiset(a) + multiset(b) == multiset(items)
  }

  /** The items whose outcome is `ok`, in order. */
  function Names(outcomes: seq<(string, bool)>, ok: bool): seq<string> {
    if outcomes == [] then []
    else
      var init, last := Names(outcomes[..|outcomes| - 1], ok), outcomes[|outcomes| - 1];
      if last.1 == ok then init + [last.0] else init
  }

  /** Everything in the list came from an outcome of this kind. */
  ghost predicate AllFrom(names: seq<string>, outcomes: seq<(string, bool)>, ok: bool) {
    forall k :: 0 <= k < |names| ==> (names[k], ok) in outcomes
  }

  lemma {:induction false} NamesSplitItems(outcomes: seq<(string, bool)>)
    ensures Split(Names(outcomes, true), Names(outcomes, false), Items(outcomes))
  {
    if outcomes != [] {
      NamesSplitItems(outcomes[..|outcomes| - 1]);
    }
  }

  lemma {:induction false} NamesComeFrom(outcomes: seq<(string, bool)>, ok: bool)
    ensures AllFrom(Names(outcomes, ok), outcomes, ok)
  {
    if outcomes != [] {
      var n := |outcomes| - 1;
      NamesComeFrom(outcomes[..n], ok);
      assert outcomes[n] in outcomes;
      forall o | o in outcomes[..n] ensures o in outcomes {
      }
    }
  }

  /** The loop of `dispatch` that separates the outcomes. */
  method Partition(outcomes: seq<(string, bool)>) returns (ok: seq<string>, failed: seq<string>)
    ensures Split(ok, failed, Items(outcomes))
    ensures AllFrom(ok, outcomes, true) && AllFrom(failed, outcomes, false)
  {
    ok, failed := [], [];
    var i := 0;
    while i < |outcomes|
      invariant 0 <= i <= |outcomes|
      invariant ok == Names(outcomes[..i], true) && failed == Names(outcomes[..i], false)
    {
      assert outcomes[..i + 1][..i] == outcomes[..i];
      if outcomes[i].1 {
        ok := ok + [outcomes[i].0];
      } else {
        failed := failed + [outcomes[i].0];
      }
      i := i + 1;
    }
    assert outcomes[..i] == outcomes;
    NamesSplitItems(outcomes);
    NamesComeFrom(outcomes, true);
    NamesComeFrom(outcomes, false);
  }

  // ------------------------------------------------------------------
  // The summary
  // ------------------------------------------------------------------

  datatype ShardDispatch = ShardDispatch(prefix: string, inShard: int, inRadius: int)

  datatype DispatchResult = DispatchResult(
    shardsTargeted: nat,
    shardsPublished: nat,
    devicesInRadius: int,
    devicesInTargetedShards: int,
    totalDevicesNotified: int,
    perShard: seq<ShardDispatch>,
    failedShards: seq<string>)
  {
    predicate IsPartial() { failedShards != [] }
  }

  const BY_PREFIX := (a: ShardDispatch, b: ShardDispatch) => TextLess(a.prefix, b.prefix)
  const BY_TEXT := (a: string, b: string) => TextLess(a, b)

  lemma PrefixOrdering()
    ensures Ordering(BY_PREFIX) && Ordering(BY_TEXT)
  {
    forall a, b | TextLess(a, b) ensures !TextLess(b, a) {
      TextOrderIsTotal(a, b);
    }
    forall a, b, c | !TextLess(b, a) && !TextLess(c, b) ensures !TextLess(c, a) {
      TextOrderIsTransitive(a, b, c);
    }
  }

  function Sum<T>(s: seq<T>, f: T -> int): int {
    if s == [] then 0 else Sum(s[..|s| - 1], f) + f(s[|s| - 1])
  }

  lemma {:induction false} SumWithout<T>(s: seq<T>, k: nat, f: T -> int)
    requires k < |s|
    ensures Sum(s, f) == Sum(Remove(s, k), f) + f(s[k])
  {
    var n := |s| - 1;
    if k == n {
      assert Remove(s, k) == s[..n];
    } else {
      SumWithout(s[..n], k, f);
      var r := Remove(s, k);
      assert r[..|r| - 1] == Remove(s[..n], k) && r[|r| - 1] == s[n];
    }
  }

  /** Sums do not depend on the order. */
  lemma {:induction false} SumOfPermutation<T>(a: seq<T>, b: seq<T>, f: T -> int)
    requires multiset(a) == multiset(b)
    ensures Sum(a, f) == Sum(b, f)
    decreases |a|
  {
    assert |multiset(a)| == |a| && |multiset(b)| == |b|;
    if a != [] {
      var n := |a| - 1;
      assert a == a[..n] + [a[n]];
      assert a[n] in multiset(b);
      var k :| 0 <= k < |b| && b[k] == a[n];
      SumWithout(b, k, f);
      RemoveOne(b, k);
      assert multiset(a[..n]) == multiset(Remove(b, k)) by {
        assert multiset(a[..n]) + multiset{a[n]} == multiset(Remove(b, k)) + multiset{a[n]};
        assert multiset(a[..n]) == multiset(a) - multiset{a[n]};
      }
      SumOfPermutation(a[..n], Remove(b, k), f);
    }
  }

  const IN_RADIUS := (s: ShardDispatch) => s.inRadius
  const IN_SHARD := (s: ShardDispatch) => s.inShard

  /** `summarize`: both lists sorted, the totals taken over the published shards. */
  function Summarize(shardsTargeted: nat, published: seq<ShardDispatch>, failed: seq<string>): DispatchResult {
    var perShard, failedShards := Sort(published, BY_PREFIX), Sort(failed, BY_TEXT);
    var inRadius := Sum(perShard, IN_RADIUS);
    DispatchResult(shardsTargeted, |perShard|, inRadius, Sum(perShard, IN_SHARD), inRadius, perShard, failedShards)
  }

  predicate PrefixesAscend(rows: seq<ShardDispatch>) {
    forall i, j :: 0 <= i < j < |rows| ==> !TextLess(rows[j].prefix, rows[i].prefix)
  }

  predicate NamesAscend(names: seq<string>) {
    forall i, j :: 0 <= i < j < |names| ==> !TextLess(names[j], names[i])
  }

  /** The devices inside the circle, over all rows. */
  function TotalInRadius(rows: seq<ShardDispatch>): int {
    if rows == [] then 0 else TotalInRadius(rows[..|rows| - 1]) + rows[|rows| - 1].inRadius
  }

  /** The devices of the whole cells, over all rows. */
  function TotalInShards(rows: seq<ShardDispatch>): int {
    if rows == [] then 0 else TotalInShards(rows[..|rows| - 1]) + rows[|rows| - 1].inShard
  }

  lemma {:induction false} SumsAreTotals(rows: seq<ShardDispatch>)
    ensures Sum(rows, IN_RADIUS) == TotalInRadius(rows) && Sum(rows, IN_SHARD) == TotalInShards(rows)
  {
    if rows != [] {
      SumsAreTotals(rows[..|rows| - 1]);
    }
  }

  /** The summary keeps the same shards and its totals are the sums over them. */
  lemma SummaryIsFaithful(shardsTargeted: nat, published: seq<ShardDispatch>, failed: seq<string>)
    ensures var r := Summarize(shardsTargeted, published, failed);
            && multiset(r.perShard) == multiset(published) && multiset(r.failedShards) == multiset(failed)
            && PrefixesAscend(r.perShard) && NamesAscend(r.failedShards)
            && r.shardsTargeted == shardsTargeted && r.shardsPublished == |published| && |r.failedShards| == |failed|
            && r.devicesInRadius == r.totalDevicesNotified == TotalInRadius(published)
            && r.devicesInTargetedShards == TotalInShards(published)
            && (r.IsPartial() <==> failed != [])
  {
    PrefixOrdering();
    SortIsCorrect(published, BY_PREFIX);
    SortIsCorrect(failed, BY_TEXT);
    var r := Summarize(shardsTargeted, published, failed);
    SumOfPermutation(r.perShard, published, IN_RADIUS);
    SumOfPermutation(r.perShard, published, IN_SHARD);
    SumsAreTotals(published);
    assert |multiset(r.perShard)| == |r.perShard| && |multiset(published)| == |published|;
    assert |multiset(r.failedShards)| == |r.failedShards| && |multiset(failed)| == |failed|;
  }

  // ------------------------------------------------------------------
  // The whole dispatch
  // ------------------------------------------------------------------

  function Prefixes(s: seq<ShardDispatch>): seq<string> {
    seq(|s|, i requires 0 <= i < |s| => s[i].prefix)
  }

  /** A shard whose count failed is recorded with zeros. */
  function Counted(prefix: string, counts: string -> Option<(int, int)>): ShardDispatch {
    match counts(prefix)
    case Some((inShard, inRadius)) => ShardDispatch(prefix, inShard, inRadius)
    case None => ShardDispatch(prefix, 0, 0)
  }

  /** The recorded rows, one per counted shard. */
  function Rows(done: seq<(string, ShardDispatch)>): seq<ShardDispatch> {
    seq(|done|, i requires 0 <= i < |done| => done[i].1)
  }

  lemma {:induction false} ItemAt<T, R>(done: seq<(T, R)>, i: nat)
    requires i < |done|
    ensures Items(done)[i] == done[i].0
  {
    if i < |done| - 1 {
      ItemAt(done[..|done| - 1], i);
    }
  }

  lemma {:induction false} RowsHaveTheirPrefixes(done: seq<(string, ShardDispatch)>, counts: string -> Option<(int, int)>)
    requires forall i :: 0 <= i < |done| ==> done[i].1 == Counted(done[i].0, counts)
    ensures Prefixes(Rows(done)) == Items(done)
    ensures forall row :: row in Rows(done) ==> row == Counted(row.prefix, counts)
  {
    forall i | 0 <= i < |done| ensures Prefixes(Rows(done))[i] == Items(done)[i] {
      ItemAt(done, i);
    }
  }

  lemma {:induction false} PrefixesOfPermutation(a: seq<ShardDispatch>, b: seq<ShardDispatch>)
    requires multiset(a) == multiset(b)
    ensures multiset(Prefixes(a)) == multiset(Prefixes(b))
    decreases |a|
  {
    if a == [] {
      assert |multiset(b)| == |b|;
    } else {
      var n := |a| - 1;
      var k := FindInPermutation(a, b);
      PrefixesOfPermutation(a[..n], Remove(b, k));
      assert Prefixes(a) == Prefixes(a[..n]) + [a[n].prefix];
      assert Prefixes(Remove(b, k)) == Remove(Prefixes(b), k);
      RemoveOne(Prefixes(b), k);
    }
  }

  /** The last item of one list is somewhere in the other; without it they are permutations again. */
  lemma FindInPermutation<T>(a: seq<T>, b: seq<T>) returns (k: nat)
    requires a != [] && multiset(a) == multiset(b)
    ensures k < |b| && b[k] == a[|a| - 1] && multiset(a[..|a| - 1]) == multiset(Remove(b, k))
  {
    var n := |a| - 1;
    assert a == a[..n] + [a[n]];
    assert a[n] in multiset(b);
    k :| 0 <= k < |b| && b[k] == a[n];
    RemoveOne(b, k);
    assert multiset(a[..n]) == multiset(a) - multiset{a[n]};
    assert multiset(Remove(b, k)) == multiset(b) - multiset{a[n]};
  }

  /** The row holds what was counted for its prefix, the whole cell first; a failed count is two zeros. */
  predicate RowHolds(row: ShardDispatch, counts: string -> Option<(int, int)>) {
    match counts(row.prefix)
    case Some(count) => row.inShard == count.0 && row.inRadius == count.1
    case None => row.inShard == 0 && row.inRadius == 0
  }

  /** Every target is in exactly one list; the lists say what the publishes did. */
  ghost predicate Covers(perShard: seq<ShardDispatch>, failed: seq<string>, targets: seq<string>,
                         publish: string -> bool, counts: string -> Option<(int, int)>)
  {
    && multiset(Prefixes(perShard)) + multiset(failed) == multiset(targets)
    && (forall row :: row in perShard ==> publish(row.prefix) && RowHolds(row, counts))
    && (forall s :: s in failed ==> !publish(s))
  }

  lemma {:induction false} CoversReordered(a: seq<ShardDispatch>, f: seq<string>, b: seq<ShardDispatch>, g: seq<string>,
                        targets: seq<string>, publish: string -> bool, counts: string -> Option<(int, int)>)
    requires Covers(a, f, targets, publish, counts)
    requires multiset(a) == multiset(b) && multiset(f) == multiset(g)
    ensures Covers(b, g, targets, publish, counts)
  {
    PrefixesOfPermutation(a, b);
    forall row | row in b ensures publish(row.prefix) && RowHolds(row, counts) {
      assert row in multiset(b) && row in multiset(a);
    }
    forall s | s in g ensures !publish(s) {
      assert s in multiset(g) && s in multiset(f);
    }
  }

  lemma {:induction false} CoversCounts(perShard: seq<ShardDispatch>, failed: seq<string>, targets: seq<string>,
                     publish: string -> bool, counts: string -> Option<(int, int)>)
    requires Covers(perShard, failed, targets, publish, counts)
    ensures |perShard| + |failed| == |targets|
    ensures failed != [] <==> exists s :: s in targets && !publish(s)
  {
    var names := Prefixes(perShard);
    assert |multiset(names) + multiset(failed)| == |names| + |failed| && |multiset(targets)| == |targets|;
    if failed != [] {
      assert failed[0] in multiset(targets) && failed[0] in targets;
    }
    forall s | s in targets && !publish(s) ensures failed != [] {
      assert s in multiset(targets);
    }
  }

  /** The two scheduled stages: publish everywhere, then count where it worked. */
  method PublishAndCount(targets: seq<string>, publish: string -> bool, counts: string -> Option<(int, int)>,
                         publishOrder: nat -> nat, countOrder: nat -> nat)
    returns (published: seq<ShardDispatch>, failed: seq<string>, peak: nat)
    ensures peak <= 16
    ensures Covers(published, failed, targets, publish, counts)
  {
    var outcomes, peak1 := RunAll(targets, publish, publishOrder);
    var ok: seq<string>;
    ok, failed := Partition(outcomes);
    var counted, peak2 := RunAll(ok, p => Counted(p, counts), countOrder);
    published := Rows(counted);
    peak := if peak1 > peak2 then peak1 else peak2;
    OutcomesAreCovered(outcomes, ok, failed, counted, targets, publish, counts);
  }

  lemma {:induction false} OutcomesAreCovered(
    outcomes: seq<(string, bool)>, ok: seq<string>, failed: seq<string>, counted: seq<(string, ShardDispatch)>,
    targets: seq<string>, publish: string -> bool, counts: string -> Option<(int, int)>)
    requires multiset(Items(outcomes)) == multiset(targets) && Worked(outcomes, publish)
    requires multiset(ok) + multiset(failed) == multiset(Items(outcomes))
    requires (forall s :: s in ok ==> (s, true) in outcomes) && (forall s :: s in failed ==> (s, false) in outcomes)
    requires multiset(Items(counted)) == multiset(ok)
    requires forall i :: 0 <= i < |counted| ==> counted[i].1 == Counted(counted[i].0, counts)
    ensures Covers(Rows(counted), failed, targets, publish, counts)
  {
    RowsHaveTheirPrefixes(counted, counts);
    var rows := Rows(counted);
    forall row | row in rows ensures publish(row.prefix) {
      var i :| 0 <= i < |rows| && rows[i] == row;
      assert Prefixes(rows)[i] in multiset(Prefixes(rows));
      assert row.prefix in multiset(ok);
      assert (row.prefix, true) in outcomes;
    }
  }

  /**
   `dispatch` from the target shards to the response, for every outcome of the
   publishes and counts and every order in which they finish. Every target appears
   exactly once, as published or as failed.
   */
  method DispatchAlert(targets: seq<string>, publish: string -> bool, counts: string -> Option<(int, int)>,
                       publishOrder: nat -> nat, countOrder: nat -> nat)
    returns (r: DispatchResult, peak: nat)
    ensures peak <= 16
    ensures Covers(r.perShard, r.failedShards, targets, publish, counts)
    ensures r.shardsTargeted == |targets| == r.shardsPublished + |r.failedShards|
    ensures PrefixesAscend(r.perShard) && NamesAscend(r.failedShards)
    ensures r.devicesInRadius == r.totalDevicesNotified == TotalInRadius(r.perShard)
    ensures r.devicesInTargetedShards == TotalInShards(r.perShard)
    ensures r.IsPartial() <==> exists s :: s in targets && !publish(s)
  {
    var published, failed;
    published, failed, peak := PublishAndCount(targets, publish, counts, publishOrder, countOrder);
    r := Summarize(|targets|, published, failed);
    SummaryIsFaithful(|targets|, published, failed);
    SumsAreTotals(r.perShard);
    CoversReordered(published, failed, r.perShard, r.failedShards, targets, publish, counts);
    CoversCounts(r.perShard, r.failedShards, targets, publish, counts);
  }
}
