/**
 Exactly when the registry's two indexes agree, for every interleaving of map steps:
 a condition on the order of the steps that write one device's entries
 (crates/fanout-worker/src/connection_registry.rs). No assumption is made about who
 overlaps whom.
 */
module MapOrder {
  import opened Options
  import opened Registry
  import opened MapSteps

  // ------------------------------------------------------------------
  // What a step does to a device's entries of the shard index
  // ------------------------------------------------------------------

  /** The last step of a register: the connection is written into its shard. */
  predicate Places(st: State, step: Step, d: DeviceId, c: Connection) {
    step.InsertShard? && step.t in st.tasks && st.tasks[step.t] == Cleaned(d, c)
  }

  /** The cleanup of a replaced or a removed connection. */
  predicate Drops(st: State, step: Step, d: DeviceId, c: Connection) {
    || (step.CleanShard? && step.t in st.tasks && st.tasks[step.t].Inserted? && st.tasks[step.t].d == d
        && st.tasks[step.t].previous == Some(c))
    || (step.RemoveShard? && step.t in st.tasks && st.tasks[step.t] == Removed(d, c))
  }

  /** The last step of `close_all`. */
  predicate Clears(st: State, step: Step) {
    step.ClearShards? && step.t in st.tasks && st.tasks[step.t].ClearedDevices?
  }

  /** The device's entry under a shard. */
  function EntryOf(st: State, d: DeviceId, s: Shard): Option<Connection> {
    if d in ShardOf(st.byShard, s) then Some(ShardOf(st.byShard, s)[d]) else None
  }

  /** The step writes some connection of the device into the shard. */
  predicate PlacesIn(st: State, step: Step, d: DeviceId, s: Shard) {
    step.InsertShard? && step.t in st.tasks && st.tasks[step.t].Cleaned? && st.tasks[step.t].d == d
    && st.tasks[step.t].c.shard == s
  }

  /** One id means one connection. */
  lemma SameIdSameConnection(st: State, d: DeviceId, a: Connection, e: DeviceId, b: Connection)
    requires Genuine(st, d, a) && Genuine(st, e, b) && a.id == b.id
    ensures d == e && a == b
  {
  }

  lemma EntryAfterPlacing(st: State, step: Step, d: DeviceId, s: Shard)
    requires Survives(st) && step.InsertShard?
    ensures EntryOf(Apply(st, step), d, s) ==
              if PlacesIn(st, step, d, s) then Some(st.tasks[step.t].c) else EntryOf(st, d, s)
  {
  }

  lemma EntryAfterDropping(st: State, step: Step, d: DeviceId, s: Shard)
    requires Survives(st) && (step.CleanShard? || step.RemoveShard?)
    ensures EntryOf(Apply(st, step), d, s) ==
              if EntryOf(st, d, s).Some? && Drops(st, step, d, EntryOf(st, d, s).value) then None else EntryOf(st, d, s)
  {
    var before := EntryOf(st, d, s);
    if step.t in st.tasks && before.Some? {
      assert s in st.byShard && Genuine(st, d, before.value) && before.value.shard == s;
      var task := st.tasks[step.t];
      assert GenuineTask(st, task);
      var dropped := if step.CleanShard? && task.Inserted? then task.previous
                     else if step.RemoveShard? && task.Removed? then Some(task.c) else None;
      if dropped.Some? && dropped.value.id == before.value.id {
        SameIdSameConnection(st, task.d, dropped.value, d, before.value);
      }
    }
  }

  /** A step changes an entry only by writing it, dropping that very connection, or clearing everything. */
  lemma EntryAfterStep(st: State, step: Step, d: DeviceId, s: Shard, c: Connection)
    requires Survives(st) && c.shard == s
    ensures EntryOf(Apply(st, step), d, s) == Some(c) <==>
              || Places(st, step, d, c)
              || (EntryOf(st, d, s) == Some(c) && !PlacesIn(st, step, d, s) && !Drops(st, step, d, c) && !Clears(st, step))
  {
    if step.InsertShard? {
      EntryAfterPlacing(st, step, d, s);
    } else if step.CleanShard? || step.RemoveShard? {
      EntryAfterDropping(st, step, d, s);
    }
  }

  // ------------------------------------------------------------------
  // The same, over whole runs
  // ------------------------------------------------------------------

  function At(steps: seq<Step>, i: nat): State
    requires i <= |steps|
  {
    Run(NOTHING, steps[..i])
  }

  predicate PlacesAt(steps: seq<Step>, i: int, d: DeviceId, c: Connection) {
    0 <= i < |steps| && Places(At(steps, i), steps[i], d, c)
  }

  predicate PlacesInAt(steps: seq<Step>, i: int, d: DeviceId, s: Shard) {
    0 <= i < |steps| && PlacesIn(At(steps, i), steps[i], d, s)
  }

  predicate DropsAt(steps: seq<Step>, i: int, d: DeviceId, c: Connection) {
    0 <= i < |steps| && Drops(At(steps, i), steps[i], d, c)
  }

  predicate ClearsAt(steps: seq<Step>, i: int) {
    0 <= i < |steps| && Clears(At(steps, i), steps[i])
  }

  /** Step `i` is the last one that writes an entry of the device into the connection's shard, and writes this one. */
  ghost predicate PlacedLast(steps: seq<Step>, i: int, d: DeviceId, c: Connection) {
    PlacesAt(steps, i, d, c) && forall j :: i < j ==> !PlacesInAt(steps, j, d, c.shard)
  }

  ghost predicate TakenOutAfter(steps: seq<Step>, i: int, d: DeviceId, c: Connection) {
    exists j :: i < j && (DropsAt(steps, j, d, c) || ClearsAt(steps, j))
  }

  /** The connection was written last into its shard and not taken out since. */
  ghost predicate Stands(steps: seq<Step>, d: DeviceId, c: Connection) {
    exists i :: PlacedLast(steps, i, d, c) && !TakenOutAfter(steps, i, d, c)
  }

  /** What happens at a step does not depend on what follows. */
  lemma SameInPrefix(steps: seq<Step>, i: int, d: DeviceId, c: Connection, s: Shard)
    requires steps != [] && 0 <= i < |steps| - 1
    ensures var init := steps[..|steps| - 1];
            && (PlacesAt(init, i, d, c) <==> PlacesAt(steps, i, d, c))
            && (PlacesInAt(init, i, d, s) <==> PlacesInAt(steps, i, d, s))
            && (DropsAt(init, i, d, c) <==> DropsAt(steps, i, d, c))
            && (ClearsAt(init, i) <==> ClearsAt(steps, i))
  {
    assert steps[..|steps| - 1][..i] == steps[..i];
  }

  lemma StandsInPrefix(steps: seq<Step>, d: DeviceId, c: Connection)
    requires steps != [] && !PlacesAt(steps, |steps| - 1, d, c) && Stands(steps, d, c)
    ensures Stands(steps[..|steps| - 1], d, c)
    ensures !PlacesInAt(steps, |steps| - 1, d, c.shard) && !DropsAt(steps, |steps| - 1, d, c) && !ClearsAt(steps, |steps| - 1)
  {
    var n := |steps| - 1;
    var i :| PlacedLast(steps, i, d, c) && !TakenOutAfter(steps, i, d, c);
    assert i < n;
    SameInPrefix(steps, i, d, c, c.shard);
    forall j | i < j
      ensures !PlacesInAt(steps[..n], j, d, c.shard) && !DropsAt(steps[..n], j, d, c) && !ClearsAt(steps[..n], j)
    {
      if j < n {
        SameInPrefix(steps, j, d, c, c.shard);
      }
    }
    assert PlacedLast(steps[..n], i, d, c);
  }

  lemma StandsStill(steps: seq<Step>, d: DeviceId, c: Connection)
    requires steps != [] && Stands(steps[..|steps| - 1], d, c)
    requires !PlacesInAt(steps, |steps| - 1, d, c.shard) && !DropsAt(steps, |steps| - 1, d, c) && !ClearsAt(steps, |steps| - 1)
    ensures Stands(steps, d, c)
  {
    var n := |steps| - 1;
    var i :| PlacedLast(steps[..n], i, d, c) && !TakenOutAfter(steps[..n], i, d, c);
    SameInPrefix(steps, i, d, c, c.shard);
    forall j | i < j
      ensures !PlacesInAt(steps, j, d, c.shard) && !DropsAt(steps, j, d, c) && !ClearsAt(steps, j)
    {
      if j < n {
        SameInPrefix(steps, j, d, c, c.shard);
      }
    }
    assert PlacedLast(steps, i, d, c);
  }

  lemma StandsWhenPlaced(steps: seq<Step>, d: DeviceId, c: Connection)
    requires steps != [] && PlacesAt(steps, |steps| - 1, d, c)
    ensures Stands(steps, d, c)
  {
    assert PlacedLast(steps, |steps| - 1, d, c);
  }

  /** After every run an entry is there exactly if it was written last and not taken out since. */
  lemma {:induction false} EntryHistory(steps: seq<Step>, d: DeviceId, c: Connection)
    ensures EntryOf(Run(NOTHING, steps), d, c.shard) == Some(c) <==> Stands(steps, d, c)
  {
    if steps != [] {
      var n := |steps| - 1;
      EntryHistory(steps[..n], d, c);
      EveryInterleavingSurvives(steps[..n]);
      EntryAfterStep(Run(NOTHING, steps[..n]), steps[n], d, c.shard, c);
      if PlacesAt(steps, n, d, c) {
        StandsWhenPlaced(steps, d, c);
      } else if Stands(steps, d, c) {
        StandsInPrefix(steps, d, c);
      } else if EntryOf(Run(NOTHING, steps), d, c.shard) == Some(c) {
        StandsStill(steps, d, c);
      }
    }
  }

  // ------------------------------------------------------------------
  // A connection that is dropped is never current again
  // ------------------------------------------------------------------

  /** The id was handed out, is not current and will not become so. */
  ghost predicate Over(st: State, id: ConnId) {
    && id in st.owner
    && (forall d :: d in st.byDevice ==> st.byDevice[d].id != id)
    && (forall t :: t in st.tasks ==> Waiting(st.tasks[t]) != Some(id))
  }

  /** The connection the task is going to drop. */
  function Doomed(task: Task): Option<Connection> {
    match task
    case Inserted(_, _, previous) => previous
    case Removed(_, c) => Some(c)
    case _ => None
  }

  /** The id a register has been handed out but not made current yet. */
  function Waiting(task: Task): Option<ConnId> {
    if task.Allocated? then Some(task.c.id) else None
  }

  ghost predicate WaitingIdsDiffer(st: State) {
    && (forall t, u :: t in st.tasks && u in st.tasks && t != u && Waiting(st.tasks[t]).Some? ==>
          Waiting(st.tasks[t]) != Waiting(st.tasks[u]))
    && (forall t, d :: t in st.tasks && d in st.byDevice ==> Waiting(st.tasks[t]) != Some(st.byDevice[d].id))
  }

  /** An id waits in one register, or is current, or is over; whatever a task will drop is over. */
  ghost predicate OneLife(st: State) {
    && WaitingIdsDiffer(st)
    && (forall t :: t in st.tasks && Doomed(st.tasks[t]).Some? ==> Over(st, Doomed(st.tasks[t]).value.id))
  }

  lemma OverStays(st: State, step: Step, id: ConnId)
    requires Survives(st) && Over(st, id)
    ensures Over(Apply(st, step), id)
  {
    assert id <= st.nextId;
  }

  /** What the step makes over: the connection that was current. */
  lemma NewlyOver(st: State, step: Step, t: TaskId)
    requires Survives(st) && OneLife(st) && t in Apply(st, step).tasks
    requires t !in st.tasks || Doomed(Apply(st, step).tasks[t]) != Doomed(st.tasks[t])
    ensures Doomed(Apply(st, step).tasks[t]).Some? ==> Over(Apply(st, step), Doomed(Apply(st, step).tasks[t]).value.id)
  {
    var after := Apply(st, step);
    if Doomed(after.tasks[t]).Some? {
      var c := Doomed(after.tasks[t]).value;
      assert step.t == t && (step.InsertDevice? || step.RemoveDevice?);
      var d := after.tasks[t].d;
      assert d in st.byDevice && st.byDevice[d] == c && Genuine(st, d, c);
      forall e | e in after.byDevice ensures after.byDevice[e].id != c.id {
        if e != d {
          assert Genuine(st, e, st.byDevice[e]);
        }
      }
    }
  }

  lemma StepKeepsWaitingIds(st: State, step: Step)
    requires Survives(st) && WaitingIdsDiffer(st)
    ensures WaitingIdsDiffer(Apply(st, step))
  {
    var after := Apply(st, step);
    if step.Allocate? && after != st {
      forall u | u in st.tasks && st.tasks[u].Allocated? ensures st.tasks[u].c.id <= st.nextId {
        assert GenuineTask(st, st.tasks[u]);
      }
      forall d | d in st.byDevice ensures st.byDevice[d].id <= st.nextId {
        assert Genuine(st, d, st.byDevice[d]);
      }
    }
  }

  lemma StepKeepsOneLife(st: State, step: Step)
    requires Survives(st) && OneLife(st)
    ensures OneLife(Apply(st, step))
  {
    var after := Apply(st, step);
    StepKeepsWaitingIds(st, step);
    forall t | t in after.tasks && Doomed(after.tasks[t]).Some? ensures Over(after, Doomed(after.tasks[t]).value.id) {
      if t in st.tasks && Doomed(after.tasks[t]) == Doomed(st.tasks[t]) {
        OverStays(st, step, Doomed(st.tasks[t]).value.id);
      } else {
        NewlyOver(st, step, t);
      }
    }
  }

  lemma {:induction false} RunKeepsOneLife(steps: seq<Step>)
    ensures Survives(Run(NOTHING, steps)) && OneLife(Run(NOTHING, steps))
  {
    EveryInterleavingSurvives(steps);
    if steps != [] {
      RunKeepsOneLife(steps[..|steps| - 1]);
      StepKeepsOneLife(Run(NOTHING, steps[..|steps| - 1]), steps[|steps| - 1]);
    }
  }

  lemma {:induction false} OverForGood(steps: seq<Step>, i: nat, id: ConnId)
    requires i <= |steps| && Over(At(steps, i), id)
    ensures Over(Run(NOTHING, steps), id)
    decreases |steps|
  {
    if i == |steps| {
      assert steps[..i] == steps;
    } else {
      var n := |steps| - 1;
      assert steps[..n][..i] == steps[..i];
      OverForGood(steps[..n], i, id);
      EveryInterleavingSurvives(steps[..n]);
      OverStays(Run(NOTHING, steps[..n]), steps[n], id);
    }
  }

  lemma DroppedIsNotCurrent(steps: seq<Step>, j: int, d: DeviceId, c: Connection)
    requires DropsAt(steps, j, d, c)
    ensures CurrentOf(Run(NOTHING, steps), d) != Some(c)
  {
    var st := At(steps, j);
    RunKeepsOneLife(steps[..j]);
    assert Doomed(st.tasks[steps[j].t]) == Some(c);
    OverForGood(steps, j, c.id);
  }

  // ------------------------------------------------------------------
  // The exact condition
  // ------------------------------------------------------------------

  /**
   The order in which one device's entries were written and taken out: the connection
   written last into a shard is the device's current one, or was taken out after it
   was written, by its own cleanup or by `close_all`; and the current connection was
   written last into its shard, with no `close_all` clearing the index after that.
   */
  ghost predicate WellOrdered(steps: seq<Step>, d: DeviceId) {
    var current := CurrentOf(Run(NOTHING, steps), d);
    && (forall i, c :: PlacedLast(steps, i, d, c) && current != Some(c) ==> TakenOutAfter(steps, i, d, c))
    && (current.Some? ==>
          exists i :: PlacedLast(steps, i, d, current.value) && forall j :: i < j ==> !ClearsAt(steps, j))
  }

  lemma AgreeingIsWellOrdered(steps: seq<Step>, d: DeviceId)
    requires Agrees(Run(NOTHING, steps), d)
    ensures WellOrdered(steps, d)
  {
    var st := Run(NOTHING, steps);
    var current := CurrentOf(st, d);
    forall i, c | PlacedLast(steps, i, d, c) && current != Some(c) ensures TakenOutAfter(steps, i, d, c) {
      assert ShardAgrees(st, c.shard, d);
      EntryHistory(steps, d, c);
    }
    if current.Some? {
      assert ShardAgrees(st, current.value.shard, d);
      EntryHistory(steps, d, current.value);
    }
  }

  lemma WellOrderedAgrees(steps: seq<Step>, d: DeviceId, s: Shard)
    requires WellOrdered(steps, d)
    ensures ShardAgrees(Run(NOTHING, steps), s, d)
  {
    var st := Run(NOTHING, steps);
    var current := CurrentOf(st, d);
    if current.Some? && current.value.shard == s {
      CurrentStands(steps, d);
      EntryHistory(steps, d, current.value);
    }
    if EntryOf(st, d, s).Some? {
      var c := EntryOf(st, d, s).value;
      EveryInterleavingSurvives(steps);
      assert c.shard == s;
      EntryHistory(steps, d, c);
      StandingIsCurrent(steps, d, c);
    }
  }

  lemma StandingIsCurrent(steps: seq<Step>, d: DeviceId, c: Connection)
    requires WellOrdered(steps, d) && Stands(steps, d, c)
    ensures CurrentOf(Run(NOTHING, steps), d) == Some(c)
  {
  }

  lemma CurrentStands(steps: seq<Step>, d: DeviceId)
    requires WellOrdered(steps, d) && CurrentOf(Run(NOTHING, steps), d).Some?
    ensures Stands(steps, d, CurrentOf(Run(NOTHING, steps), d).value)
  {
    var c := CurrentOf(Run(NOTHING, steps), d).value;
    var i :| PlacedLast(steps, i, d, c) && forall j :: i < j ==> !ClearsAt(steps, j);
    forall j | i < j ensures !DropsAt(steps, j, d, c) {
      if DropsAt(steps, j, d, c) {
        DroppedIsNotCurrent(steps, j, d, c);
      }
    }
  }

  /** For every run of map steps, finished or not, the indexes agree on a device if and only if its steps were well ordered. */
  lemma AgreesIffWellOrdered(steps: seq<Step>, d: DeviceId)
    ensures Agrees(Run(NOTHING, steps), d) <==> WellOrdered(steps, d)
  {
    if Agrees(Run(NOTHING, steps), d) {
      AgreeingIsWellOrdered(steps, d);
    }
    if WellOrdered(steps, d) {
      forall s ensures ShardAgrees(Run(NOTHING, steps), s, d) {
        WellOrderedAgrees(steps, d, s);
      }
    }
  }
}
