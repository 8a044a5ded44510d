# PulseGrid: a verified model of alert delivery

PulseGrid sends an alert to the devices inside a circle. The coordinator turns the
circle into geohash cells and publishes the alert once per cell (shard); each shard
belongs to one fanout worker, which holds a lease on it and passes the alert to the
WebSocket connections of the devices inside. A device that was away is replayed what
it missed since the cursor it last acknowledged.

The correctness of this lies between the files: in the order of registering and
replaying, in scripts that compare texts, in two sides that compute the same cell.
This project models those parts in Dafny and proves what they promise together.

| file | what it models |
|---|---|
| `Delivery.dfy` | live fanout and replay over whole runs: nothing falls between them |
| `Redelivery.dfy` | at-least-once delivery across a device's connections, driven by its acknowledgements |
| `ReplayPlan.dfy` | reading the stream, choosing and queueing what a device missed |
| `Registry.dfy`, `ConnectionRegistry.dfy` | the connection registry as functions on its state, and the object whose methods are those functions |
| `Connections.dfy` | registry, replay and writer tasks over whole runs |
| `MapSteps.dfy`, `MapOrder.dfy` | the registry at the granularity of single map operations, and exactly when its two maps agree |
| `LeaseStore.dfy`, `ShardLease.dfy` | the lease scripts under any interleaving, and the worker's loops over them |
| `CursorText.dfy`, `EarlyCursors.dfy`, `Texts.dfy` | the cursor's text form: byte order is time order, and where it is not |
| `AckBatcher.dfy`, `CursorRuns.dfy` | the rate limiter, and the cursor over whole runs |
| `Geohash.dfy`, `Device.dfy`, `Locations.dfy` | geohash cells by bisection, devices and their shard |
| `Routing.dfy`, `CircleBoxes.dfy` | from a circle to cells, and to the boxes of the SQL filter |
| `Dispatch.dfy` | publishing to many shards at once and summing up |
| `Histogram.dfy` | the histogram against the raw observations |
| `Times.dfy`, `Sequences.dfy`, `Options.dfy` | instants, sorting and optional values |

Check it with `dafny verify dfyconfig.toml`.

How to read the model:

- A protocol is a `World`, a list of events and a `Step`; a run is any sequence of
  events, and an event that is not possible changes nothing. The theorems are about all
  runs. Fields that only record history (`best`, `offered`, `dropped`, `present`, `until`) are read
  by no step that decides anything.
- Times are integers (nanoseconds, or milliseconds in `LeaseStore` and for the expiry of
  the cursor), degrees and distances are `real`, counters are unbounded.
- Where the code and the repository's own README differ the code is followed: 100 rings
  (the README says 40), at-least-once delivery (the README says at most once), shard
  leases (the README does not know them).

Five promises turn out to hold only under a condition. Each has an input that fails and
the exact condition, an if-and-only-if over all inputs or runs:

- the boxes of a circle are exact if and only if no edge lies on the antimeridian
  (`SplitIsExactIff`), and their over-cover makes the exception harmless
  (`BoxesCoverTheCircle`);
- a replay is complete if and only if at most `limit` alerts are wanted and each is among
  the first 500 messages of the window (`PlanIsCompleteIff`, with `CrowdHidesAnAlert`
  and `SkewHidesAnAlert`);
- the registry's two maps agree on a device if and only if its map steps were well
  ordered (`AgreesIffWellOrdered`). Overlapping operations on one device can leave a
  stale entry or, worse, the current connection indexed nowhere
  (`OverlapLeavesStaleEntry`, `OverlapInOneShardHidesTheCurrent`,
  `DeregisterOverlapUnindexes`); one operation per device at a time is enough
  (`SerialPerDeviceAgrees`);
- a failed `acquire_all` leaves this worker's URL on a shard exactly where a lost reply
  granted it or an older lease of the same URL still runs (`AcquireAll`,
  `LeftBehindExactly`, with `LostReplyLeavesTheFailedShard` and
  `RestartLeavesAnOldEntry`);
- cursor texts compare like instants, in the years -9999 to 9999, if and only if the two
  are not in different years before 0000 (`TextOrderIsTimeOrderIff`, with
  `EarlyYearsCompareBackwards`).

## Model

| member | source | states |
|---|---|---|
| `Delivery.NoGapBetweenLiveAndReplay` | crates/fanout-worker/src/ws.rs:273-311 | Over every run: an alert of the connection's shard whose circle contains the unmoving device, created after the cursor and fanned out before the registration or while the connection was current, was offered by a broadcast or is in the replay plan. Only the "before" case needs clocks within tolerance, at most 500 stored messages in the window and at most `limit` matches. |
| `Delivery.CurrentConnectionMissesNothing` | crates/fanout-worker/src/replay.rs:186-225 | The same for a connection that is still current, about every alert the worker has ever fanned out. |
| `Delivery.OfferedIsQueuedOrDropped` | crates/fanout-worker/src/subscriber.rs:23-36 | An offered alert becomes the last message of the queue, or there was no room, nothing changed and it is recorded as dropped. |
| `Delivery.RunKeepsAllInv` | crates/fanout-worker/src/ws.rs:271-311 | In every run the registry is in order, every live connection is the newest session of its device, every plan is what its moment of reading allowed, and everything fanned out past a current connection was offered to it if it concerned the device. |
| `Delivery.CurrentIsReached` | crates/fanout-worker/src/connection_registry.rs:132-154 | A current connection in the alert's shard with the device inside the circle is among those a broadcast reaches. |
| `Delivery.StoredIsPlanned` | crates/infra/src/nats.rs:166-211 | A stored, wanted message within the skew tolerance is planned if the window holds at most 500 messages and at most `limit` are wanted. |
| `Delivery.FetchedIsReady` | crates/fanout-worker/src/replay.rs:194-218 | A replay that has read the stream had its connect time and its cursor, and read a contiguous part of the stream. |
| `Delivery.MadePlansStay` | crates/fanout-worker/src/replay.rs:220-225 | From any moment of a run to any later one, a connection's connect time, cursor and plan, once known, stay the same, and what it has sent only grows. |
| `Delivery.ProgressInNumbers` | crates/fanout-worker/src/replay.rs:194-225 | A session takes its connect time, reads the device's cursor or falls back to 300 s before that time, and plans from everything still retained. |
| `Delivery.HistoriesRecord` | crates/fanout-worker/src/ws.rs:273-279 | What the run records: every received alert past every current connection, everything fanned out before a registration, and exactly the messages a replay queues. |
| `Delivery.SendQueuesNext` | crates/fanout-worker/src/replay.rs:227-244 | A sending step appends the next message of the plan, or the closing ReplayComplete, to the connection's queue. |
| `Delivery.FinishedReplayHandedAll` | crates/fanout-worker/src/replay.rs:226-244 | In every run, a replay that has sent everything has queued every planned alert and then said how many there were. |
| `Delivery.EveryAlertReachesTheQueue` | crates/fanout-worker/src/replay.rs:186-250 | End to end: for a current connection whose replay has finished, every alert that concerns the device, is after the cursor and was ever fanned out was offered live or queued by the replay. |
| `Redelivery.CaughtIffAfterCursor` | crates/infra/src/nats.rs:196-203 | Among the alerts fanned out before the registration that a replay can catch, it plans exactly those after the cursor it read. |
| `Redelivery.DroppedIsReplayedIff` | crates/fanout-worker/src/replay.rs:1-12 | Over two connections of one device: an alert the first had no room for is in the plan of the later one, if its replay can catch it, exactly when the cursor read then is before the alert. |
| `Redelivery.ReplayedUntilAcknowledged` | crates/fanout-worker/src/replay.rs:1-12 | At least once until acknowledged: with a cursor stored, a dropped alert newer than everything acknowledged is in the next plan; once all cursor writes have landed, only then, so acknowledging a newer alert gives the dropped one up. |
| `Redelivery.RunKeepsAcksInv` | crates/fanout-worker/src/replay.rs:194-202 | Every cursor a connection ever read is the stored one of the device's acknowledgements at that moment, or the five-minute window without one. |
| `ReplayPlan.ReplayAlerts` | crates/infra/src/nats.rs:160-212 | The fetch loop returns the first `max` (at least 1, at most 500) of the parsed alerts strictly newer than the cursor, in microseconds, among the first 500 messages from 60 s before the cursor. |
| `ReplayPlan.PlanIsNewestWanted` | crates/fanout-worker/src/replay.rs:167-225 | Fetch, strict cut, truncation, circle filter and drain together are the end of the list of stored alerts after the cursor, before connect + 5 s and containing the device, as long as `limit` allows: the newest ones, oldest first. |
| `ReplayPlan.PlanIsCompleteIff` | crates/infra/src/nats.rs:189-195 | For every stream and with no condition on clocks or counts, the plan is complete if and only if at most `limit` stored alerts are wanted and each lies among the first 500 messages of the window. |
| `ReplayPlan.CrowdHidesAnAlert` | crates/infra/src/nats.rs:189-195 | A stream of 501 messages whose last one is wanted and is not planned, whatever the limit. |
| `ReplayPlan.SkewHidesAnAlert` | crates/infra/src/nats.rs:170-173 | A wanted alert stored 61 s before its creation time, which the window misses and no plan holds. |
| `ReplayPlan.BatchHoldsWantedIff` | crates/infra/src/nats.rs:189-205 | The fetched batch never holds more wanted alerts than the stream, and all of them exactly if each is fetched. |
| `ReplayPlan.PlanOfTheBatch` | crates/fanout-worker/src/replay.rs:167-182 | Without any condition the plan is the end of the batch's wanted alerts, of length `limit` or all of them. |
| `ReplayPlan.LeftOutIsOlder` | crates/fanout-worker/src/replay.rs:179-181 | If a wanted message that was read is not planned, every planned alert comes from a wanted message stored after it. |
| `ReplayPlan.PlannedInNumbers` | crates/fanout-worker/src/replay.rs:173-177 | A planned alert is later than the cursor in whole microseconds, earlier than connect + 5 s, at most its radius away from the device, and stored for the shard within the window. |
| `ReplayPlan.OnlyWantedIsPlanned` | crates/infra/src/nats.rs:196-205 | Whatever is stored, only alerts of the shard are planned, at most `limit`, and none at or before the cursor, too late or with the device outside. |
| `ReplayPlan.WindowKeepsWanted` | crates/infra/src/nats.rs:170-173 | Starting 60 s before the cursor leaves no wanted alert out while publisher and server clocks differ by at most that. |
| `ReplayPlan.SkewKeepsInWindow` | crates/infra/src/nats.rs:30-35 | An alert after the cursor that was stored at most 60 s before its creation time lies in the window, also when the start is cut off at 1970. |
| `ReplayPlan.TwoFiltersAreOne` | crates/fanout-worker/src/replay.rs:173-178 | The cut by time and the filter by circle, applied one after the other, keep exactly the wanted alerts in order. |
| `ReplayPlan.RunReplay` | crates/fanout-worker/src/replay.rs:226-244 | What is queued is a prefix of the plan; it is all of it if and only if every send succeeded, and then `ReplayComplete` follows and counts exactly the alerts queued. |
| `Connections.RunKeepsInv` | crates/fanout-worker/src/connection_registry.rs:85-201 | After every run of registry operations, replay sends and writer steps the two indexes agree, ids are unique and no queue exceeds 64. |
| `Connections.RemovedAtMostOnce` | crates/fanout-worker/src/connection_registry.rs:112-126 | Over a run `deregister` returns true at most once per connection id, whether called by a cleanup or by a closing message that found the queue full. |
| `Connections.DeregisterRemovesOnlyItsId` | crates/fanout-worker/src/ws.rs:431-434 | Cleaning up an old connection never removes a newer one: only the id given leaves the registry, and only if it is the device's current one. |
| `Connections.RegisterChangesLiveIds` | crates/fanout-worker/src/connection_registry.rs:85-108 | Registering adds a never used id and removes exactly the id it replaces. |
| `Connections.RunKeepsRetired` | crates/fanout-worker/src/connection_registry.rs:112-126 | An id that left the registry never comes back. |
| `Connections.EntriesBalance` | crates/fanout-worker/src/connection_registry.rs:85-201 | Between `close_all` calls the live entries are the registrations minus the replacements minus the successful removals. |
| `Connections.ReplacedEnds` | crates/fanout-worker/src/connection_registry.rs:95-100 | A replaced connection has a closing message queued or nobody left holding a sender, unless a replay task still does. |
| `Connections.ToldToCloseEnds` | crates/fanout-worker/src/connection_registry.rs:171-180 | So has a connection sent a closing control message, also when its queue was full. |
| `Connections.ShutDownEnds` | crates/fanout-worker/src/connection_registry.rs:195-201 | So has every connection caught by `close_all`. |
| `Connections.ReplayEndLetsGo` | crates/fanout-worker/src/ws.rs:418-420 | When the replay of a connection that left the registry ends, the connection is ending too. |
| `Connections.WhoHoldsASender` | crates/fanout-worker/src/ws.rs:299-311 | A replay gets a sender of the device's current connection only, and only its start and end change who holds one. |
| `Connections.StepKeepsEnding` | crates/fanout-worker/src/ws.rs:326-361 | No step of anybody else takes an ending connection further from its end. |
| `Connections.RecvApproachesEnd` | crates/fanout-worker/src/ws.rs:332-352 | Each message the writer takes brings the end one message closer or stops it. |
| `Connections.ClosingTakesEffect` | crates/fanout-worker/src/ws.rs:320-362 | An ending connection's writer has stopped once it polled its queue more often than messages were left, at most 64. |
| `Connections.NothingFollowsClose` | crates/fanout-worker/src/ws.rs:320-362 | In every run no writer sends any frame after a Close frame (section 5.5.1 of RFC 6455). |
| `Connections.StepAddsFrames` | crates/fanout-worker/src/ws.rs:327-358 | A step puts frames only on the wire of a running writer, with a Close frame only as its last one and only if the writer stops. |
| `Connections.RecvInNumbers` | crates/fanout-worker/src/ws.rs:332-352 | What a taken message puts on the wire, for every outcome of the sends: an alert one binary frame, a control message one text frame, a Close frame after a closing or unsent one, and whether the writer goes on. |
| `Connections.RecvOfNothing` | crates/fanout-worker/src/ws.rs:332-333 | With an empty queue the writer waits exactly while the registry or a replay holds a sender. |
| `Connections.PingAndNotifyInNumbers` | crates/fanout-worker/src/ws.rs:328-331 | A ping is one frame or the end; when the reader ends, the writer sends a Close frame and stops; neither touches the queue. |
| `Connections.WireCarriesTheQueue` | crates/fanout-worker/src/ws.rs:320-362 | Over every run in which sends succeed, the data frames a connection was sent, followed by what is still queued, are exactly the messages its queue accepted, in order and once each. |
| `Connections.AcceptedAreOrigins` | crates/fanout-worker/src/connection_registry.rs:148-151 | The accepted messages are those of the steps listed as their origins, one for each. |
| `Connections.QueuesKeepBroadcastOrder` | crates/fanout-worker/src/subscriber.rs:50-69 | A queue's messages come from strictly later and later steps of the run, so its live alerts are in broadcast order. |
| `Registry.RegisterKeepsInv` | crates/fanout-worker/src/connection_registry.rs:85-108 | Registering, with or without a replacement and to the same or another shard, keeps the indexes in agreement, ids unique and queues bounded. |
| `Registry.DeregisterKeepsInv` | crates/fanout-worker/src/connection_registry.rs:112-126 | Deregistering keeps the invariant, whether or not the id is current. |
| `Registry.SendControlKeepsInv` | crates/fanout-worker/src/connection_registry.rs:171-180 | A control message keeps the invariant, also when a full queue turns a closing one into a removal. |
| `Registry.ShardHoldsItsDevices` | crates/fanout-worker/src/connection_registry.rs:207-213 | The shard index holds exactly the devices whose current connection has that shard, and counts them. |
| `Registry.CountsSumToConnections` | crates/fanout-worker/src/connection_registry.rs:203-213 | Per-shard counts over any list of shards covering the live ones add up to `connection_count`. |
| `Registry.BroadcastConserves` | crates/fanout-worker/src/connection_registry.rs:138-153 | Delivered, dropped and filtered out add up to the shard's connection count. |
| `Registry.BroadcastTouchesOnlyDelivered` | crates/fanout-worker/src/connection_registry.rs:142-152 | Exactly the delivered connections' queues grow, each by this one alert; every other queue stays. |
| `Registry.TrySendInNumbers` | crates/fanout-worker/src/connection_registry.rs:148-151 | A channel takes a message exactly while its receiver is there and it holds fewer than 64. |
| `Registry.BroadcastInNumbers` | crates/fanout-worker/src/connection_registry.rs:132-154 | A broadcast tries the alert on exactly the connections of devices now connected to the shard whose position is within the radius of the centre. |
| `Registry.FatesInNumbers` | crates/fanout-worker/src/connection_registry.rs:142-152 | Who is delivered to, dropped and filtered out, by distance and free room, among exactly the shard's devices. |
| `Registry.RegisterInNumbers` | crates/fanout-worker/src/connection_registry.rs:85-108 | The new connection is the device's, in the given shard and place, with an empty queue; the replaced one is told to close; nobody else notices. |
| `Registry.DeregisterInNumbers` | crates/fanout-worker/src/connection_registry.rs:112-126 | Gone from both maps exactly if current, and nothing else changes. |
| `Registry.SendControlInNumbers` | crates/fanout-worker/src/connection_registry.rs:171-180 | With room the message is queued as it is and the entry stays; without, a closing one takes the device out and any other is lost. |
| `Registry.CloseAllInNumbers` | crates/fanout-worker/src/connection_registry.rs:195-201 | Every current connection with room is told to close, and both maps are empty. |
| `Registry.MoveInNumbers` | crates/fanout-worker/src/connection_registry.rs:158-166 | After a move the device's connection is filtered by its new place and every other by its old one. |
| `ConnectionRegistries.ServeAll` | crates/fanout-worker/src/connection_registry.rs:142-153 | The loop over a shard, in any order, leaves the queues and the three counts that the connections' positions and free room call for. |
| `ConnectionRegistries.ServeOne` | crates/fanout-worker/src/connection_registry.rs:144-151 | One connection: filtered out by its position, or tried once and counted as delivered or dropped by the room there was. |
| `ConnectionRegistries.CloseEach` | crates/fanout-worker/src/connection_registry.rs:196-198 | The loop over all connections, in any order, queues a Close where there is room and touches nothing else. |
| `ConnectionRegistries.ConnectionRegistry.RegisterConnection` | crates/fanout-worker/src/connection_registry.rs:85-108 | The new state is `Register` of the old one; the id is new and its queue empty. |
| `ConnectionRegistries.ConnectionRegistry.DeregisterConnection` | crates/fanout-worker/src/connection_registry.rs:112-126 | True exactly for the device's current connection, and then only that one is gone from both maps. |
| `ConnectionRegistries.ConnectionRegistry.BroadcastToShard` | crates/fanout-worker/src/connection_registry.rs:132-154 | The new queues are those of `Broadcast`, the result holds the sizes of the delivered, dropped and filtered sets and adds up to the shard's count. |
| `ConnectionRegistries.ConnectionRegistry.UpdateDeviceLocation` | crates/fanout-worker/src/connection_registry.rs:158-166 | Changes the position of the device's current connection and says whether there is one. |
| `ConnectionRegistries.ConnectionRegistry.SendControlMessage` | crates/fanout-worker/src/connection_registry.rs:171-180 | The new state is `SendControl` of the old one; true exactly if the device is connected here. |
| `ConnectionRegistries.ConnectionRegistry.SenderFor` | crates/fanout-worker/src/connection_registry.rs:186-192 | A sender is had exactly while the shard index holds this very connection for the device, so replay and live fanout reach the same connection; its queue is known and bounded and no other device has it. |
| `ConnectionRegistries.ConnectionRegistry.CloseAllConnections` | crates/fanout-worker/src/connection_registry.rs:195-201 | Both maps are emptied and every connection with room is told to close. |
| `ConnectionRegistries.ConnectionRegistry.ConnectionCount` | crates/fanout-worker/src/connection_registry.rs:203-205 | The number of connections is the sum of the per-shard counts over any covering list of shards. |
| `ConnectionRegistries.ConnectionRegistry.ShardConnectionCount` | crates/fanout-worker/src/connection_registry.rs:207-213 | The number of devices whose current connection is in the shard; 0 for an unknown shard. |
| `ConnectionRegistries.HandleControl` | crates/fanout-worker/src/control.rs:37-65 | An unreadable message, a bad position or one not meant for workers is ignored; otherwise the outcome says whether the device is here and what was done; a move changes only the position; the closing messages are sent with close. |
| `ConnectionRegistries.ClosingControlEnds` | crates/fanout-worker/src/control.rs:53-61 | After a change of shard or a revocation the connection has at most 64 more messages to go, whatever its queue held. |
| `ConnectionRegistries.ClosingControlIsQueued` | crates/fanout-worker/src/control.rs:53-61 | The message itself is queued first if there is room, marked as closing. |
| `ConnectionRegistries.Fanout` | crates/fanout-worker/src/subscriber.rs:23-36 | A payload that does not parse touches nothing; otherwise the broadcast happens and its counts add up. |
| `MapSteps.EveryInterleavingSurvives` | crates/fanout-worker/src/connection_registry.rs:85-126 | Whatever map steps interleave, an id belongs to one device and one shard wherever it occurs, and an entry sits under its own shard. |
| `MapSteps.DeregisterRemovesOwnIdOnly` | crates/fanout-worker/src/connection_registry.rs:113-121 | At map-step granularity both steps of `deregister` remove entries of its own id only. |
| `MapSteps.UninterruptedRegister` | crates/fanout-worker/src/connection_registry.rs:95-105 | The four map steps of `register`, uninterrupted, are the atomic `Register`. |
| `MapSteps.UninterruptedDeregister` | crates/fanout-worker/src/connection_registry.rs:112-126 | The two map steps of `deregister`, uninterrupted, are the atomic `Deregister`, for a current connection or not. |
| `MapSteps.UninterruptedCloseAll` | crates/fanout-worker/src/connection_registry.rs:199-200 | The two clearing steps of `close_all`, uninterrupted, empty both maps as `CloseAll` does. |
| `MapSteps.SerialPerDeviceAgrees` | crates/fanout-worker/src/connection_registry.rs:95-121 | If no operation starts on a device while another on it is unfinished (`close_all` working on every device), the indexes agree once all are finished, whatever interleaves across devices. |
| `MapSteps.OverlapLeavesStaleEntry` | crates/fanout-worker/src/connection_registry.rs:95-105 | Two overlapping registers of one device in two shards can finish with the replaced connection still indexed under its shard. |
| `MapSteps.OverlapInOneShardHidesTheCurrent` | crates/fanout-worker/src/connection_registry.rs:95-105 | In one shard, the same two overlapping registers finish with the current connection indexed nowhere and the replaced one kept in its place. |
| `MapSteps.DeregisterOverlapUnindexes` | crates/fanout-worker/src/connection_registry.rs:95-121 | A register overlapping a deregistration can finish with the current connection indexed nowhere. |
| `MapOrder.AgreesIffWellOrdered` | crates/fanout-worker/src/connection_registry.rs:85-126 | For every run of map steps, finished or not, the indexes agree on a device if and only if in each shard the connection written last is the current one or was taken out after that, and the current one was written last and not cleared by `close_all` since. |
| `MapOrder.EntryHistory` | crates/fanout-worker/src/connection_registry.rs:97-105 | After every run the shard index holds a connection exactly if it was the last one written there for the device and was not dropped or cleared since. |
| `MapOrder.DroppedIsNotCurrent` | crates/fanout-worker/src/connection_registry.rs:95-100 | A connection whose entry was cleaned up is never the device's current one again. |
| `MapOrder.RunKeepsOneLife` | crates/fanout-worker/src/connection_registry.rs:87-95 | In every run an id waits in one register, or is current, or is over for good. |
| `LeaseStore.LeaseExclusion` | crates/infra/src/redis.rs:130-149 | From any store, after any interleaving of claims, refreshes, releases and time by any workers, at most one URL is inside an unexpired, unreleased claim of a shard, and `GET` names it. |
| `LeaseStore.ScriptsInNumbers` | crates/infra/src/redis.rs:130-149 | A claim of a free or own key writes the URL for `ttl` seconds from now and any other changes nothing; a release deletes an own live key and nothing else. |
| `LeaseStore.InsideInNumbers` | crates/infra/src/redis.rs:126-129 | A worker is inside from a granted claim for `ttl` seconds or until its own release; nobody else's step puts it in or out. |
| `LeaseStore.Period` | crates/fanout-worker/src/lease.rs:113 | The period is a third of the TTL in whole seconds, never under one, so two periods fit into a TTL of at least 3. |
| `LeaseStore.StepKeepsOthersEntries` | crates/infra/src/redis.rs:142-149 | No worker's step changes or deletes a live entry that holds another URL. |
| `LeaseStore.RunKeepsBacked` | crates/infra/src/redis.rs:126-140 | Every claim somebody is inside of is backed by the key with that URL and expiry, over every run. |
| `LeaseStore.SystemRefinesStore` | crates/infra/src/redis.rs:130-149 | Recording who is inside a claim adds nothing to what the scripts do to the keys. |
| `LeaseStore.ForeignRunNeverGivesUrl` | crates/infra/src/redis.rs:130-149 | Steps of other workers never put this worker's URL on a key. |
| `LeaseStore.UntouchedUntilExpiry` | crates/infra/src/redis.rs:130-149 | While a worker does not touch a shard, the key shows its URL exactly if it did at the start and that lease has not expired, whatever the others do. |
| `LeaseStore.LeaseContinuity` | crates/fanout-worker/src/lease.rs:111-122 | With period max(1, ttl/3), if no two consecutive rounds fail and each claim lands less than ttl - 2 periods after its tick (for the first two rounds less the time from the acquisition to the first tick), the key names this worker at every instant of the run, whatever the others do. |
| `LeaseStore.RenewedWithinTtl` | crates/fanout-worker/src/lease.rs:110-122 | Under that schedule less than one TTL passes between renewals. |
| `ShardLeases.ShardRegistry.ClaimShard` | crates/infra/src/redis.rs:193-207 | One claim script, with the request or the reply possibly lost: what a lost message leaves behind, and that an answered claim says exactly whether the key now holds this URL. |
| `ShardLeases.ShardRegistry.ReleaseShard` | crates/infra/src/redis.rs:210-223 | One release script, with the request or the reply possibly lost: the answer says exactly whether the key held this URL. |
| `ShardLeases.ShardLease.AcquireAll` | crates/fanout-worker/src/lease.rs:43-74 | The trace grows by exactly the claims in order up to the first that is not answered and granted, and then the releases; success means every call was. On failure with working releases a listed shard shows this URL exactly if it is left behind: not claimed, and either it is the failed one, its reply was lost and the grant has not expired, or no claim of it was made and it showed the URL before and has not expired. Live entries of other URLs stay as they are. |
| `ShardLeases.ShardLease.Release` | crates/fanout-worker/src/lease.rs:76-82 | Every listed shard gets one release call, in order; after successful calls none carries this URL, whatever the others did meanwhile. |
| `ShardLeases.ShardLease.RefreshOnce` | crates/fanout-worker/src/lease.rs:87-108 | The round makes exactly one claim call per shard, in order and whatever the answers; it returns true, and is healthy, exactly if every call was answered and granted. |
| `ShardLeases.ShardLease.RefreshRounds` | crates/fanout-worker/src/lease.rs:111-122 | The refresher's rounds, one after the other, leave exactly the steps of their calls. |
| `ShardLeases.RefresherKeepsTheLease` | crates/fanout-worker/src/lease.rs:87-122 | After an acquisition, rounds that ask on schedule and never twice in a row fail to reach Redis keep this URL on the shard at every instant, whatever the others do. |
| `ShardLeases.RoundsNeverFailTwice` | crates/fanout-worker/src/lease.rs:87-122 | Such a sequence of rounds meets the schedule of the continuity theorem: of two successive rounds one has landed in time, whether or not its reply came back. |
| `ShardLeases.ShardLease.ReleaseAll` | crates/fanout-worker/src/lease.rs:125-129 | Not healthy afterwards and, if the calls succeed, no shard carries this URL. |
| `ShardLeases.LostReplyLeavesTheFailedShard` | crates/fanout-worker/src/lease.rs:66-69 | After a granted claim whose reply was lost, and whatever the others do, the failed shard shows this URL exactly until the lease expires. |
| `ShardLeases.LeftBehindExactly` | crates/fanout-worker/src/lease.rs:43-82 | The exact list of shards that still show the URL after a failed acquisition whose releases worked, over every interleaving. |
| `ShardLeases.RestartLeavesAnOldEntry` | crates/fanout-worker/src/lease.rs:52-65 | Without any fault, a worker restarted under its URL within the TTL that meets a conflict leaves its former entry on a shard it never came to. |
| `ShardLeases.OwnStepsKeepOthers` | crates/fanout-worker/src/lease.rs:40-42 | In every trace this worker's own steps leave every live entry of another URL as it is. |
| `CursorText.StringOrderIsTimeOrder` | crates/infra/src/redis.rs:484-499 | For any two instants of the years 0000 to 9999 the fixed-width texts compare, and are equal, exactly as the instants cut to microseconds do (section 5.1 of RFC 3339). |
| `CursorText.CursorRoundTrip` | crates/infra/src/redis.rs:532-541 | Reading back a written cursor gives the instant cut to microseconds. |
| `CursorText.DateOfItsMicros` | crates/infra/src/redis.rs:497-499 | Every date of the years 0000 to 9999 is the date of its instant again. |
| `CursorText.CursorLayout` | crates/infra/src/redis.rs:497-499 | The layout of a cursor: four digits of the year, two of the other fields, six of the microseconds, and the separators of RFC 3339. |
| `CursorText.NewYearDate` | crates/infra/src/redis.rs:497-499 | The midnight before each New Year's day, counted from 1970, has that date. |
| `CursorText.MonthsStart` | crates/infra/src/redis.rs:497-499 | On which day of the year each month starts. |
| `CursorText.TextOrderIsFieldOrder` | crates/infra/src/redis.rs:497-499 | Fixed-width decimal fields with equal separators compare as texts exactly as their values compare from the left. |
| `CursorText.TimeOrderIsCivilOrder` | crates/infra/src/redis.rs:497-499 | One valid date and time is before another in years, months, days and so on exactly if its microsecond count is smaller. |
| `CursorText.FromMicros` | crates/infra/src/redis.rs:497-499 | The calendar date of a count of microseconds is valid and has that count again. |
| `CursorRuns.AdvanceIsMaximum` | crates/infra/src/redis.rs:487-495 | The script refines a numeric maximum: the stored text afterwards is the later of the two instants, and the reply says whether it moved. |
| `CursorRuns.AdvanceInNumbers` | crates/infra/src/redis.rs:487-495 | No live text gives way to any, a live one only to a greater; either way seven days are granted from now. |
| `CursorRuns.CursorLivesAWeek` | crates/fanout-worker/src/replay.rs:28-29 | A cursor written where none was live is read back until 604 800 s have passed, and not after. |
| `CursorRuns.AdvanceIsMaximumIff` | crates/infra/src/redis.rs:487-495 | With the years -9999 to 9999, the script is a numeric maximum if and only if the two instants are not in two different years before 0000. |
| `CursorRuns.AdvanceReadableIff` | crates/infra/src/redis.rs:532-541 | What a write leaves stored can be read back if and only if the old or the new instant is in the years 0000 to 9999. |
| `CursorRuns.EarlyAckBlocksTheCursor` | crates/infra/src/redis.rs:532-541 | One accepted acknowledgement before the year 0000 of a device without a cursor leaves a cursor that cannot be read. |
| `EarlyCursors.TextOrderIsTimeOrderIff` | crates/infra/src/redis.rs:484-499 | For the years -9999 to 9999 two cursor texts compare as their instants do if and only if these are not in two different years before 0000. |
| `EarlyCursors.EarlyYearsCompareBackwards` | crates/infra/src/redis.rs:484-499 | The New Years of any two successive years before 0000 compare backwards. |
| `EarlyCursors.EarlyIsUnreadable` | crates/infra/src/redis.rs:537-539 | A cursor written with a signed year is refused by the strict parser. |
| `CursorRuns.Rfc3339IsFaithful` | crates/infra/src/redis.rs:497-541 | The texts the program writes have the three properties the run proofs need: order, equality and reading back. |
| `CursorRuns.StoredCursorIsCorrect` | crates/fanout-worker/src/ws.rs:232-269 | Over every run with any connections, lost or late writes and acknowledgements after the final flush, of instants in the years 0000 to 9999: the cursor can always be read, never decreases unless it lapsed, never exceeds the newest initial or accepted timestamp, and equals it once all writes have landed and every batcher is flushed. |
| `CursorRuns.CursorNeverTooNew` | crates/fanout-worker/src/replay.rs:133-141 | The stored cursor never exceeds the newest initial or accepted timestamp cut to microseconds. |
| `CursorRuns.CursorEndsAtNewest` | crates/fanout-worker/src/ws.rs:422-429 | With nothing lost or lapsed, nothing on its way and every batcher flushed, the cursor is exactly that newest timestamp. |
| `CursorRuns.CursorNeverMovesBack` | crates/infra/src/redis.rs:484-495 | From any point of a run to any later one the cursor only grows unless it lapsed. |
| `CursorRuns.AckForgetsNothing` | crates/fanout-worker/src/replay.rs:136-154 | An acknowledgement never loses the newest value: it stays stored, on its way or waiting in a batcher. |
| `CursorRuns.WritesAreSpaced` | crates/fanout-worker/src/replay.rs:142-147 | One connection's acknowledgement-driven writes are at least `min_interval` apart in every run. |
| `CursorRuns.WaitingIsRecent` | crates/fanout-worker/src/replay.rs:142-151 | In every run whatever waits in a batcher was acknowledged less than a second after that connection's last write, so a due write is never put off. |
| `CursorRuns.HistoriesRecord` | crates/fanout-worker/src/replay.rs:133-154 | What the run records: the newest value rises with every accepted acknowledgement, write times are those of the writes, and losses and lapses are real ones. |
| `AckBatching.AckBatcher.OfferAck` | crates/fanout-worker/src/replay.rs:127-155 | Over 60 s ahead an acknowledgement is ignored; otherwise the larger of it and the waiting value is written exactly if there was no write yet or the interval has passed since, and waits if not. |
| `AckBatching.OfferInNumbers` | crates/fanout-worker/src/replay.rs:127-155 | The same of the function the runs use. |
| `AckBatching.AckBatcher.TakePending` | crates/fanout-worker/src/replay.rs:158-160 | Hands out what was waiting and leaves nothing waiting. |
| `Geohash.EncodedCellContainsPoint` | crates/domain/src/geo.rs:27-33 | The rectangle of a point's cell, at any precision, contains the point. |
| `Geohash.EncoderComparesInTurn` | crates/domain/src/geo.rs:27-33 | The next bit of a point says whether it is at or above the midpoint of the longitudes, or of the latitudes, in turn. |
| `Geohash.ShorterEncodingIsPrefix` | crates/domain/src/geo.rs:35-39 | Encoding with fewer bits gives a prefix of the longer encoding. |
| `Geohash.ShardPrefixIsShortEncoding` | crates/domain/src/geo.rs:37-39 | Truncating the 7-character geohash to 4 gives the 4-character encoding the router computes. |
| `Geohash.ShardCellContainsDevice` | crates/domain/src/geo.rs:170-179 | The rectangle of a device's shard prefix exists and contains the device. |
| `Geohash.LongerCellsNest` | crates/domain/src/geo.rs:170-179 | A longer cell lies inside every shorter one it extends. |
| `Geohash.DistinctPrefixesAreDisjoint` | crates/domain/src/geo.rs:170-179 | Distinct prefixes of one length never overlap in their interiors. |
| `Geohash.TextRoundTrip` | crates/domain/src/geo.rs:27-33 | Decoding the base-32 text of a cell gives its bits again. |
| `Geohash.TextsWithTheSameBits` | crates/api-coordinator/dashboard/app.js:77-79 | Two texts that decode to the same bits are the same text. |
| `Geohash.GeohashBounds` | crates/api-coordinator/dashboard/app.js:73-89 | The bit-by-bit decoder returns the rectangle of the cell, and nothing exactly for a text with a foreign character; what that rectangle is, `BitsHalveInTurn` and `CellOfT` say. |
| `Geohash.BitsHalveInTurn` | crates/api-coordinator/dashboard/app.js:76-86 | After an even number of bits the next one halves the longitudes and leaves the latitudes alone, after an odd number the other way round; a set bit means the upper half. |
| `Geohash.FirstBitIsTheHemisphere` | crates/api-coordinator/dashboard/app.js:74-76 | The empty cell is the world, and the first bit its eastern or western half. |
| `Geohash.CellOfT` | crates/api-coordinator/dashboard/app.js:73-89 | "t" is the square from the equator to 45 north and from 45 to 90 east. |
| `Geohash.NarrowByCharacter` | crates/api-coordinator/dashboard/app.js:80-86 | The five bits of one character narrow the rectangle as folding them one by one does, the most significant first. |
| `Geohash.NarrowedIsBounds` | crates/api-coordinator/dashboard/app.js:77-87 | Narrowing a cell's rectangle by more bits gives the rectangle of the longer cell. |
| `Geohash.CharactersAreBase32` | crates/api-coordinator/dashboard/app.js:12 | The characters in the order of their values are the dashboard's alphabet. |
| `Geohash.CellIsGridSquare` | crates/domain/src/geo.rs:76-78 | A cell is the square at its column and row of a regular grid over the globe. |
| `Geohash.CellAtItsPlace` | crates/domain/src/geo.rs:63-69 | Column and row identify the cell. |
| `Geohash.ShardGridIs1024By1024` | crates/domain/src/geo.rs:12-16 | Four characters make a 1024 by 1024 grid. |
| `Geohash.ColumnsComeFirst` | crates/domain/src/geo.rs:76-78 | After an odd number of bits there are twice as many columns as rows, after an even number as many. |
| `Devices.RegisterDevice` | crates/domain/src/device.rs:61-73 | A device is made exactly for a position that has a geohash, and its shard is the cell of its position. |
| `Devices.Device.UpdateLocation` | crates/domain/src/device.rs:80-89 | The shard follows the position; the answer is whether the 4-character cell changed; an invalid position changes nothing. |
| `Routing.ExpandRing` | crates/domain/src/geo.rs:111-119 | One ring adds exactly unseen neighbours of the frontier and leaves out none. |
| `Routing.Expand` | crates/domain/src/geo.rs:106-124 | The rings visit exactly the cells within that many neighbour steps, early exit included. |
| `Routing.EmptyRingIsTheLast` | crates/domain/src/geo.rs:120-122 | Once a ring adds nothing no later ring would. |
| `Routing.RingsCoverSquares` | crates/domain/src/geo.rs:110-124 | On a grid of any size that wraps in longitude, `k` rings visit every cell within `k` Chebyshev steps. |
| `Routing.RingsReachExtents` | crates/domain/src/geo.rs:76-89 | `floor(extent / cell) + 1` rings reach every cell holding a point within the angular extents. |
| `Routing.RingsNeededIsLeast` | crates/domain/src/geo.rs:87-89 | The ring count is the least number, at least one, whose cells outreach both extents. |
| `Routing.WrappedDiffIsShortest` | crates/domain/src/geo.rs:79-86 | The longitude difference used is the least over all turns around the globe. |
| `Routing.RoutingCoverage` | crates/domain/src/geo.rs:126-137 | A cell holding a point of the circle is reached by the rings and kept by the prune, under the triangle inequality and the cell-radius bound. |
| `Routing.ShardCellsForRadius` | crates/domain/src/geo.rs:55-140 | Rejects radii outside (0, 500 000] and more than 100 rings exactly; otherwise returns, without repeats, exactly the reached cells the prune keeps, each with its centre within radius plus slack. |
| `Routing.EveryDeviceInsideIsRouted` | crates/domain/src/geo.rs:41-46 | The shard a device inside the circle derives from its own geohash is among the routed prefixes. |
| `Routing.CellOfPoint` | crates/domain/src/geo.rs:63-69 | The cell of a point is in the grid, contains the point and carries its 4-character encoding. |
| `Routing.CentreIsValid` | crates/domain/src/geo.rs:131-133 | The centre of every cell of the grid is a point of the globe. |
| `CircleBoxes.SplitContains` | crates/domain/src/geo.rs:215-228 | The one or two boxes contain a point exactly when both differences are within the half-widths, the longitude the short way round, except on the antimeridian when an edge lies on it. |
| `CircleBoxes.SplitIsExactIff` | crates/domain/src/geo.rs:215-228 | The split is exact for all points if and only if neither edge lies on the antimeridian. |
| `CircleBoxes.SplitMissesTheAntimeridian` | crates/domain/src/geo.rs:222-228 | A concrete box ending at 180 degrees that misses the same meridian written as -180. |
| `CircleBoxes.BoxesCoverTheCircle` | crates/domain/src/geo.rs:186-229 | The 0.1 % over-cover repairs this: no point within the true extents is outside the boxes, near the poles included. |
| `CircleBoxes.BoxesContainExactly` | crates/domain/src/geo.rs:190-229 | The boxes hold exactly the points within the extents widened by a tenth of a percent, all longitudes near a pole, the far side of an edge on the antimeridian aside. |
| `CircleBoxes.SqlFilterIsTheBoxes` | crates/infra/src/db.rs:52-94 | The SQL form with its empty `(1, 0)` range accepts exactly the points in the boxes. |
| `CircleBoxes.PrefilterKeepsTheCount` | crates/infra/src/db.rs:196-227 | The two counts are the number of the shard's devices and the number of those within the radius; the boxes in front cost nothing. |
| `Dispatch.SchedulerLosesNothing` | crates/api-coordinator/src/services/alert_dispatch_service.rs:55-72 | In every schedule at most `limit` items are in flight and each item is waiting, in flight or done exactly once. |
| `Dispatch.RunAll` | crates/api-coordinator/src/services/alert_dispatch_service.rs:58-72 | For every completion order each item appears exactly once with its own result, and as many as possible, up to 16, are in flight together. |
| `Dispatch.Partition` | crates/api-coordinator/src/services/alert_dispatch_service.rs:191-205 | Every outcome goes to exactly one list, the right one. |
| `Dispatch.SumOfPermutation` | crates/api-coordinator/src/services/alert_dispatch_service.rs:119-120 | The sums do not depend on the order. |
| `Sequences.SortIsCorrect` | crates/api-coordinator/src/services/alert_dispatch_service.rs:117-118 | Sorting by any total order yields an ascending permutation; used for the summary's lists and the histogram's bounds. |
| `Dispatch.SummaryIsFaithful` | crates/api-coordinator/src/services/alert_dispatch_service.rs:111-131 | The summary keeps the same shards, sorted, with totals equal to the sums over what was handed in. |
| `Dispatch.PublishAndCount` | crates/api-coordinator/src/services/alert_dispatch_service.rs:189-239 | Every target is published and counted, or failed, exactly once; each row holds the two counts of its prefix in their places, or zeros for a failed count. |
| `Dispatch.DispatchAlert` | crates/api-coordinator/src/services/alert_dispatch_service.rs:169-258 | For every outcome and order: published and failed shards partition the targets, both lists ascend, the counts add up to `shards_targeted`, the totals are the sums of the rows' fields, and the result is partial exactly if some publish failed. |
| `Histograms.Histogram.constructor` | crates/infra/src/metrics.rs:166-176 | Bounds are sorted, the same ones, and nothing is observed yet. |
| `Histograms.Histogram.Observe` | crates/infra/src/metrics.rs:178-188 | One more observation, in the first bucket whose bound it does not exceed. |
| `Histograms.Histogram.Render` | crates/infra/src/metrics.rs:207-217 | Each rendered bucket is the number of observations at most its bound, values never decrease, and `+Inf` equals the count. |
| `Histograms.SlotsCountAtMost` | crates/infra/src/metrics.rs:179-184 | With ascending bounds the slots up to a bound's own hold exactly the observations at most that bound. |
| `Histograms.AllSlotsHoldEverything` | crates/infra/src/metrics.rs:213-214 | All slots together hold every observation. |
| `Histograms.SumIsClose` | crates/infra/src/metrics.rs:186-187 | The recorded sum is below the exact one, negative values as zero, by at most a microsecond for each observation. |

## Left out

- Trigonometry and floating point: haversine, sine, cosine, arcsine, rounding, NaN and infinities. The distance is a parameter and the angular extents and the prune's slack are inputs; `Metric` in `Routing.dfy` states what is assumed of them on points of the globe (triangle inequality, extents contain the circle, slack bounds the way to a cell's centre).
- The geohash library: cells are defined by bisection, and the neighbour function is any function that lists the surrounding cells of the wrapping grid (`SurroundedBy`); what it does at a pole is not fixed.
- Integer widths: wrap-around of connection ids, counters, sums of counts and the histogram's microsecond sum (an `as u64` cast) is not modelled.
- Calendar: leap seconds and years outside -9999 to 9999; parsing accepts only the fixed-width form that the program itself writes for the years 0000 to 9999.
- CursorRuns.StoredCursorIsCorrect: assumes that every acknowledged instant is in the years 0000 to 9999 (`AcksReadable`), which the program does not check; `EarlyAckBlocksTheCursor` shows what happens otherwise.
- CursorRuns.CursorEndsAtNewest: speaks of runs in which every batcher is flushed at the end; an acknowledgement handled after `take_pending` (the reader is aborted, not awaited) may stay pending and is then never written.
- LeaseStore.LeaseExclusion: as in LeaseStore.LeaseContinuity, keys lost by Redis itself (a restart, eviction) and the legacy unconditional `register_shard` are excluded; a worker is identified by its URL, so two workers must not share one.
- LeaseStore.LeaseContinuity: the time between the acquisition and the refresher's first tick (`lead`) comes off the time the claims of the first two rounds may take.
- Delivery.NoGapBetweenLiveAndReplay: an alert fanned out before the registration is caught by replay only under the 500-message and `limit` bounds, clock tolerances and retention; that an alert is stored before the worker receives it is built into the `Receive` event; reading the stream is one step at one moment; a replay that fails to read the cursor or the stream makes no plan.
- Delivery.CurrentConnectionMissesNothing: each registry operation is one step here; for a device whose operations overlap so that `WellOrdered` fails, a current connection may be unreachable.
- Connections.ClosingTakesEffect: a replay task that still holds a sender delays the end; the permit a waiting `send` may already have reserved in the queue is not modelled.
- Connections.WireCarriesTheQueue: speaks of runs in which the sends to the connection succeed; a failed send ends the connection, and what it then loses is the message being sent and what is still queued.
- ShardLeases.RefresherKeepsTheLease: the timing of the calls (`OnSchedule`) is a hypothesis about the environment; what happens between two calls, time included, is any sequence of steps of others.
- MapSteps.EveryInterleavingSurvives: queues and positions are not part of the map-step model; each single map operation is one step.
- Histograms.Histogram.Render: no observation happens during rendering; the text format is not modelled.
- Dispatch.DispatchAlert: the alert's row and the audit writes are not modelled.
- ConnectionRegistries.ConnectionRegistry.BroadcastToShard: iteration over the concurrent map is one atomic call, in any order.
- JSON, NATS, JetStream consumers, Redis and Postgres clients: only the atomic effect of a script, a stream read or a row filter is modelled.
- Reader and heartbeat tasks of a connection appear only through their effect on the writer (`Notify`, `Abort`) and on the cursor.
- Tokens, tickets, API keys, authorization, rate limiting of requests, configuration parsing, presence records, telemetry, retention sweeps, metrics other than the histogram, the load generator and the dashboard apart from its geohash decoder.
