# Verified model of the execution-events gateway

The gateway takes block-execution events from a node, numbers them, keeps a bounded history of them and fans them
out to WebSocket clients, together with metrics it derives on the way. This project models the parts of it whose
correctness depends on more than one line at a time, and proves what they promise. Each module names the file it
models. `dafny verify dfyconfig.toml` checks everything.

- **Publish, resume and live hand-off.** `Forwarder` is the publishing half as an object: assign a seqno,
  serialize once, push to the bounded history, send. `Handoff` is the protocol: a step system in which the three
  sub-steps of the forwarder interleave in any way with one handler that subscribes, decides between replay and
  snapshot, opens with one or the other, and then reads the channel. `LiveSession` is the drain loop that batches
  what was read, and `Deliveries` says item by item what it sends. `Resume` is the client's cursor rule and what the
  cursor is worth when a connection ends, `DroppedFrames` what a full queue costs, `Reconnection` what reaches a
  client over all its connections. `Backpressure` is the bounded queue in between. `Chain` joins them: any run of the
  protocol without lag, drained as the live loop drains, is a connection in the sense of `Resume`, and its cursor
  theorem holds through the queue. `Witnesses` has runs in which the bad cases occur.
- **Derived metrics.** `TopK` (approximate heavy hitters), `Lifecycle`, `LifecycleTraces` and `LifecycleStream` (per-block
  state machine, number index, update stream), `ContentionLog`, `ContentionReport` and `Contention` (storage contention
  of a block).
- **Smaller pieces.** `HashCache` (transaction-hash slots), `EventFilter` and `Subscription` (who gets what),
  `Uint256` (limb assembly). `Sums`, `Sorting` and `Common` are shared.

Objects that the gateway updates in place are classes with the same fields. A ghost log in each says what has
happened to it, and `Valid()` ties the fields to a function of that log, so that the theorems, which are about all
logs, are about the objects. Hash-map iteration takes an arbitrary remaining key each time, and nothing proved
depends on which.

## Where the code and its documentation differ

The model follows the code. Each difference has its exact condition below.

- The Behavioral Specification in docs, section 1.1, promises strictly increasing `server_seqno` on a connection. A
  drain that sends both an event batch and metrics stamps the batch with the seqno of its last metric and sends it
  first (gateway/src/lib/server.rs:891), and all messages of a snapshot carry one seqno.
  `Resume.SessionAscendsIff`: the promise holds exactly on connections with neither. `Resume.CursorIsSafeIff` says
  exactly when a cursor is safe, and `Witnesses.UnsafeStopHappens` is a run in which it is not.
- docs/API.md:114 and docs/ARCHITECTURE.md:248 say a cursor at or past the oldest seqno resumes. A cursor equal to
  the newest selects nothing and falls back to a snapshot. `Handoff.ResumeIff` gives the exact range.
- The same specification, on backpressure, says `resume_from` recovers dropped messages.
  `DroppedFrames.DroppedFrameIsRecoveredIff`: with nothing accepted after the drop, only if stopping there was safe;
  with anything accepted, only in one case, that of a dropped batch followed by metrics older than its events.
- docs/ARCHITECTURE.md:416 promises delivery at least once across reconnections. `Reconnection.JourneyIsCompleteIff`:
  among connections whose snapshots skip nothing, exactly if each ends safely; `Handoff.SnapshotResumesIff` says
  when a snapshot skips nothing, and `Handoff.UpToDateClientCanMissAnItem` is a run in which one does.
- docs/ARCHITECTURE.md:196 says events of rejected blocks are never delivered under stage gating. `Rejected` ranks
  above every stage, so they pass every gate: `Subscription.UngatedIff`.
- An empty set of event names accepts every event, so the contention and lifecycle endpoints start with the full
  event stream: `Subscription.FullStreamChannels`.
- The Behavioral Specification, section 3.3, applies the field filter whenever there is one. The code returns before
  looking at it when the subscription has no event names: `Subscription.FieldFilterCountsIff`.
- The comments of gateway/src/lib/top_k_tracker.rs name Space-Saving; the code is a variant of Misra-Gries that
  also admits the newcomer into a freed slot. The bound proved is the one of the code.
- A pending backpressure warning is sent before the message and can take the last place in the queue, so that the
  message is dropped: `Backpressure.WarningDisplacesIff`, and `Backpressure.WarningDoesDisplace` for a run.
- A snapshot is built before the live cut is loaded. `Handoff.SnapshotIsLosslessIff`: nothing is left out exactly when
  nothing gets a seqno in between; `Handoff.SnapshotCanMissAnItem` is a run in which something does.
- Proposing a hash again restarts its life (`LifecycleTraces.LifecycleTraceIff`), and with two hashes on one
  number, evicting one forgets the other (`LifecycleTraces.IndexIsExactIff`).

## Model

| member | source | states |
|---|---|---|
| `Handoff.PastIsSuffix` | gateway/src/lib/server.rs:776-781 | filtering a history of consecutive seqnos by "newer than the cursor" is taking its tail |
| `Handoff.ResumeIff` | gateway/src/lib/server.rs:764-806 | replay is chosen exactly when oldest <= cursor < newest, and is then everything after the cursor; a cursor equal to the newest seqno, or just before the oldest, gets a snapshot |
| `Handoff.StepKeepsInv` | gateway/src/lib/server.rs:603-886 | every step of the forwarder and of the handler, in any interleaving, keeps the invariant tying history, channel, cut and processed items together; when a drain ends and what it holds is said by the rows on drains below |
| `Handoff.ExecKeepsInv` | gateway/src/lib/server.rs:603-886 | the invariant holds in every reachable state |
| `Handoff.HistoryIsNewestSuffix` | gateway/src/lib/server.rs:1331-1349 | in every reachable state the history is the newest min(pushed, max) items under consecutive seqnos, each with the serialization made when it was published |
| `Handoff.LosslessHandoff` | gateway/src/lib/server.rs:603-886 | in every interleaving, a connection answered with a replay has replayed and then processed exactly cursor+1, cursor+2, ... in order, each once, minus what the channel overwrote; what is sent but not processed waits in the channel; without lag nothing is missing |
| `Handoff.SeenIsPublished` | gateway/src/lib/server.rs:813-886 | in every reachable state, what was replayed under a seqno is the serialization stored when it was published, and what was processed or is waiting is the published item |
| `Handoff.DrainsEndOnEmptyChannel` | gateway/src/lib/server.rs:869-886 | in every run, a drain ends exactly when the handler, reading on, finds the channel empty or a lag due, and then holds everything taken since it began |
| `Handoff.DrainTakesAll` | gateway/src/lib/server.rs:869-886 | with items past the cut waiting, a drain takes all of them, in order, however many there are |
| `Handoff.QueueIsBounded` | gateway/src/lib/server.rs:1347-1348 | in every run the channel holds at most its capacity |
| `Handoff.LosesIff` | gateway/src/lib/server.rs:1347-1348 | in every run, an item is lost exactly when a send finds a receiver and a full channel; it is the oldest unread one, and a lag report is then due |
| `Handoff.DecideIff` | gateway/src/lib/server.rs:764-812 | in every run, a connection is answered with a replay exactly when its cursor lies in the history below the newest entry, and then with every published item after the cursor |
| `Handoff.SnapshotThenPastTheCut` | gateway/src/lib/server.rs:835-886 | a connection answered with a snapshot processes exactly the items past the cut, minus what the channel overwrote; the snapshot is no newer than its stamp, and the stamp no newer than the cut |
| `Handoff.ProcessedIff` | gateway/src/lib/server.rs:871-886 | after a snapshot, item n has been processed exactly when it lies past the cut, has been taken from the channel and was not overwritten |
| `Handoff.AllProcessedIff` | gateway/src/lib/server.rs:805-886 | without lag, everything after a given item is processed exactly when the cut is no later than it |
| `Handoff.LateAssignsCount` | gateway/src/lib/server.rs:717-805 | the cut is the moment of the snapshot plus the items numbered between building it and loading the cut |
| `Handoff.StampIsExact` | gateway/src/lib/server.rs:717-718 | in every run, the seqno on the frames of a snapshot is the moment it was built plus the items numbered before that seqno was loaded |
| `Handoff.SnapshotIsLosslessIff` | gateway/src/lib/server.rs:717-886 | over every run without lag: snapshot and live stream leave nothing out exactly when the cut is the moment of the snapshot, which is exactly when nothing gets a seqno between building it and loading the cut |
| `Handoff.SnapshotResumesIff` | gateway/src/lib/server.rs:784-886 | over every run without lag: a resuming client answered with a snapshot gets everything after its cursor exactly when the cut is no later than its cursor |
| `Handoff.LateItemIsMissed` | gateway/src/lib/server.rs:717-886 | from any state between the stamp of a snapshot and its cut, with an empty channel of capacity 1, an item numbered then is taken from the channel unprocessed |
| `Handoff.UpToDateClientCanMissAnItem` | gateway/src/lib/server.rs:784-886 | a run in which a client whose cursor is the newest seqno resumes, gets a snapshot, and is not given the next item |
| `Handoff.SnapshotCanMissAnItem` | gateway/src/lib/server.rs:717-805 | a run in which an item published between building the snapshot and loading the cut is in neither |
| `Forwarder.WindowGrows` | gateway/src/lib/server.rs:1336-1340 | push to the back and pop from the front while over the limit keeps the history equal to the window of the newest publications |
| `Forwarder.PublishedAppends` | gateway/src/lib/server.rs:1351-1362 | publishing a list appends it in order under consecutive seqnos and changes nothing published before |
| `Forwarder.EventForwarder.constructor` | gateway/src/lib/server.rs:108-108 | a forwarder that has published nothing |
| `Forwarder.EventForwarder.BroadcastItem` | gateway/src/lib/server.rs:1331-1349 | one item gets the next seqno, one serialization, a place in the bounded history and a place on the channel |
| `Forwarder.EventForwarder.ForwardEvent` | gateway/src/lib/server.rs:1351-1362 | one ingested event publishes the event itself, then the top accesses exactly when a block ends, then TPS, contention report and lifecycle update, each if present, at these positions |
| `Forwarder.ForwardingOrder` | gateway/src/lib/server.rs:1351-1362 | the same of the list published, position by position |
| `Forwarder.EventForwarder.BroadcastMetrics` | gateway/src/lib/server.rs:1360-1362 | the three optional metrics follow in order |
| `Forwarder.EventForwarder.BroadcastIfAny` | gateway/src/lib/server.rs:1360-1362 | an optional item is published if present, and otherwise nothing changes |
| `LiveSession.LiveClient.constructor` | gateway/src/lib/server.rs:860-861 | a live connection starts with empty buffers |
| `LiveSession.LiveClient.ProcessItem` | gateway/src/lib/server.rs:1005-1048 | one item goes to the batch, tagged with its commit stage, to the metric list, or nowhere, as it is judged; Deliveries.JudgeIff says when |
| `LiveSession.LiveClient.Drain` | gateway/src/lib/server.rs:869-909 | a drain sends the frames of its items past the cut and leaves both buffers empty |
| `LiveSession.LiveClient.Collect` | gateway/src/lib/server.rs:871-886 | the buffers hold exactly the wanted events and metrics of the received items past the cut, in order |
| `LiveSession.LiveClient.Flush` | gateway/src/lib/server.rs:888-909 | the batch goes first, under the seqno of the last metric or else of the first item, then every metric |
| `LiveSession.FirstJudged` | gateway/src/lib/server.rs:871-876 | the item that woke the handler is the first one of its drain |
| `Deliveries.JudgeIff` | gateway/src/lib/server.rs:1014-1047 | an item past the cut is batched exactly if it is an event that, tagged with the commit stage of its block, passes base filter, stage gate, names and field filter; it is sent as a metric exactly if the flag of its own kind is set |
| `Deliveries.BatchIsExact` | gateway/src/lib/server.rs:871-886 | the batch of any drain is exactly the batchable events among the received items, each once, in the order received |
| `Deliveries.SendsAreExact` | gateway/src/lib/server.rs:871-886 | its metric frames are exactly the sendable metrics, each once, in the order received, under their own seqnos |
| `Deliveries.BatchIff` | gateway/src/lib/server.rs:871-886 | an event is in the batch exactly if some received item past the cut passes as it |
| `Deliveries.SentIff` | gateway/src/lib/server.rs:1027-1047 | a metric frame is sent exactly if some received item past the cut is that metric and its flag is set |
| `Deliveries.DrainDelivers` | gateway/src/lib/server.rs:869-909 | the frames of any drain: the batch if it is not empty, under the seqno of the last metric sent or else of the item that woke the handler, then those metric frames |
| `Deliveries.ChannelMetrics` | gateway/src/lib/server.rs:236-300 | which metric kinds each channel starts out with |
| `Deliveries.ChannelEvents` | gateway/src/lib/server.rs:236-300 | which events each channel starts out with when no base filter restricts them |
| `Resume.GatewayClient.constructor` | sdk/typescript/src/client.ts:86-90 | a client that has received nothing has no cursor |
| `Resume.GatewayClient.HandleMessage` | sdk/typescript/src/client.ts:415-421 | after any received frames the cursor is the last nonzero seqno among them |
| `Resume.GatewayClient.ResumeFrom` | sdk/typescript/src/client.ts:400-404 | the next connection asks to resume from that cursor |
| `Resume.EventsCarry` | gateway/src/lib/server.rs:1023-1025 | the batch of a drain carries exactly the items that were wanted events |
| `Resume.MetricsCarry` | gateway/src/lib/server.rs:899-907 | the metric frames of a drain carry exactly the items that were wanted metrics |
| `Resume.MetricsAscend` | gateway/src/lib/server.rs:899-907 | the metric frames of a drain rise strictly in seqno and stay inside its span |
| `Resume.DrainPrefixIff` | gateway/src/lib/server.rs:888-909 | inside one drain, the cursor after any number of frames is safe exactly when reading did not stop on the batch of a drain whose metrics follow |
| `Resume.DrainsPrefixIff` | gateway/src/lib/server.rs:869-909 | the same over any number of drains |
| `Resume.CursorIsSafeIff` | sdk/typescript/src/client.ts:415-421 | for any connection, replay or snapshot, and any prefix of its frames: everything up to the cursor was delivered or declined exactly when reading did not stop on a snapshot frame past the starting cursor, on a live frame after a snapshot whose cut lies past the starting cursor, or on the batch of a drain whose metrics follow |
| `Resume.DrainAscendsIff` | gateway/src/lib/server.rs:888-909 | the frames of a drain rise strictly in seqno exactly when it does not send both a batch and metrics |
| `Resume.SessionAscendsIff` | gateway/src/lib/server.rs:709-909 | the frames of a connection rise strictly in seqno exactly when none of its drains sends both a batch and metrics and it does not open with two or more messages of one snapshot; the unconditional claim of the documentation is false |
| `Resume.LaterDrainsAreHigher` | gateway/src/lib/server.rs:869-909 | every frame of later drains carries a larger seqno than every frame of earlier drains |
| `DroppedFrames.OnlyInSession` | gateway/src/lib/server.rs:813-909 | each replay frame, and each live frame but the batch of a drain whose metrics follow, carries an item that no other frame carries and that lies below every later seqno |
| `DroppedFrames.LaterFrameHidesIt` | gateway/src/lib/server.rs:657-677 | once such a frame is dropped, any later frame moves the cursor past its item |
| `DroppedFrames.MetricsCoverIff` | gateway/src/lib/server.rs:888-909 | metrics of a drain selected up to one below its first event cover everything below it exactly when none of the earlier ones is missing |
| `DroppedFrames.BatchDroppedIff` | gateway/src/lib/server.rs:888-909 | over any drains, with the batch of a drain dropped that also sends metrics: what got through later covers everything up to its seqno exactly when it is the first metrics of that drain, all below the first event of the batch |
| `DroppedFrames.DroppedFrameIsRecoveredIff` | gateway/src/lib/server.rs:657-677 | for any connection, any first dropped frame that can carry an item, and any in-order selection of later frames that got through: reconnecting brings everything back exactly when nothing later got through and stopping there was not unsafe, or when the dropped frame is such a batch and only such metrics got through |
| `Reconnection.VisitIsCompleteIff` | sdk/typescript/src/client.ts:400-421 | a connection accounts for every item from its start to the cursor it leaves exactly when it ends safely |
| `Reconnection.ReconnectingSkipsNothing` | sdk/typescript/src/client.ts:400-421 | across any number of reconnections, answered with replays or snapshots, each starting from the previous cursor and ending safely, every item from the first cursor to the last is accounted for |
| `Reconnection.UnsafeEndLosesForGood` | sdk/typescript/src/client.ts:400-421 | a connection that skips no items and ends unsafely loses an item that no earlier and no later connection accounts for |
| `Reconnection.JourneyIsCompleteIff` | sdk/typescript/src/client.ts:400-421 | a journey whose snapshots skip nothing accounts for every item from the first cursor to the last exactly when every connection ends safely |
| `Chain.JudgedSeqnos` | gateway/src/lib/server.rs:871-886 | a drain judges exactly the received items past the cut, in order, whatever the subscription |
| `Chain.HandoffIsSession` | gateway/src/lib/server.rs:806-909 | what any interleaving of publication and one replaying connection has sent, without lag, is a connection in the sense of the cursor theorem |
| `Chain.SnapshotIsSession` | gateway/src/lib/server.rs:708-909 | the same for a connection answered with a snapshot; it skips items exactly when it starts before the cut |
| `Chain.HandlerRunIsSession` | gateway/src/lib/server.rs:806-909 | the same, with the drains judged as the live loop judges them, under any subscriptions and stages |
| `Chain.EndToEnd` | gateway/src/lib/server.rs:607-677 | through the bounded queue, with nothing dropped or refused: whatever the client has received by then, its cursor is safe exactly when it has not stopped unsafely |
| `Witnesses.MixedRunEnds` | gateway/src/lib/server.rs:764-909 | a run that publishes two items, replays the second to a client that has the first, and takes two more in one drain |
| `Witnesses.UnsafeStopHappens` | gateway/src/lib/server.rs:888-909 | that run, with an event and a metric in the drain and a subscription to everything, gives a connection on which stopping after the second frame is unsafe and whose seqnos do not rise strictly |
| `Witnesses.DroppedFramesBothWays` | gateway/src/lib/server.rs:888-909 | with a metric, an event and a metric in one drain: the batch dropped and the first metric received is brought back by reconnecting; the batch received and the metrics dropped is not |
| `Backpressure.CallsAreConserved` | gateway/src/lib/server.rs:623-677 | over any mix of sends, receives and closing: calls = sent + dropped + refused by a closed channel, and what was sent is an in-order subsequence of what was offered |
| `Backpressure.QueueIsFifo` | gateway/src/lib/server.rs:607-677 | delivered plus queued is everything ever enqueued, in order; without the warnings it is the accepted messages; the queue never exceeds its capacity |
| `Backpressure.FullSubsequence` | gateway/src/lib/server.rs:647-651 | a subsequence as long as the whole is the whole |
| `Backpressure.ReceivedIsPrefix` | gateway/src/lib/server.rs:607-677 | when nothing was dropped or refused, the client has received a prefix of what was offered, interspersed only with warnings |
| `Backpressure.WarningsAreTheThousands` | gateway/src/lib/server.rs:631-660 | the warnings attempted, with the one pending, carry exactly 1000, 2000, ... up to the drops so far: none is overwritten or repeated |
| `Backpressure.AllTrueIff` | gateway/src/lib/server.rs:647-672 | every call has returned true exactly when nothing was refused and fewer than 10,000 were dropped |
| `Backpressure.WarningDisplacesIff` | gateway/src/lib/server.rs:631-651 | a message finds room and is dropped all the same exactly when the pending warning takes the last place |
| `Backpressure.WarningDoesDisplace` | gateway/src/lib/server.rs:631-665 | at any capacity, filling the queue, dropping a thousand messages and freeing one place leads to it |
| `Backpressure.ClientSender.constructor` | gateway/src/lib/server.rs:607-622 | an idle sender over an empty queue |
| `Backpressure.ClientSender.TrySend` | gateway/src/lib/server.rs:643-647 | enqueues iff the channel is open and has room, and otherwise changes nothing |
| `Backpressure.ClientSender.SendMessage` | gateway/src/lib/server.rs:623-673 | performs one send of the run: same queue, counters and pending warning, and the answer of that send whatever the answers before it |
| `Backpressure.ClientSender.ReceiveFrame` | gateway/src/lib/server.rs:609-612 | takes the oldest queued frame, if any |
| `Backpressure.ClientSender.CloseReceiver` | gateway/src/lib/server.rs:612-616 | after it, sends are refused |
| `HashCache.LatestIff` | gateway/src/lib/server.rs:1201-1211 | the cached hash is h exactly when the last operation on the slot was a header start with h |
| `HashCache.LatestAcross` | gateway/src/lib/server.rs:1182-1211 | an earlier hash survives exactly when nothing has touched the slot since: the cache is not cleared between blocks |
| `HashCache.TxnHashCache.constructor` | gateway/src/lib/server.rs:1182-1182 | 10,000 empty slots |
| `HashCache.TxnHashCache.Handle` | gateway/src/lib/server.rs:1201-1310 | over the events handled so far: an event leaves with the hash of the latest header start of its transaction not followed by an end, its own start counting and its own end not, else with the hash it came with; nothing else of it changes; it panics exactly on header starts and ends outside the table |
| `HashCache.TaggedIff` | gateway/src/lib/server.rs:1207-1211 | an event that comes without a hash leaves with h exactly when the latest event touching its transaction started it with h |
| `HashCache.TagIff` | gateway/src/lib/server.rs:1201-1211 | what the slot of an event holds when it is tagged, in terms of the events before it |
| `HashCache.SlotHoldsIff` | gateway/src/lib/server.rs:1201-1310 | a slot holds h exactly when the latest event that started or ended its transaction is a header start with h |
| `HashCache.TxnHashCache.Tagged` | gateway/src/lib/server.rs:1207-1211 | a cached hash replaces the one the event came with, and nothing else changes |
| `HashCache.TxnHashCache.Put` | gateway/src/lib/server.rs:1306-1310 | one slot operation |
| `TopK.TopKTracker.constructor` | gateway/src/lib/top_k_tracker.rs:26-31 | nothing recorded |
| `TopK.TopKTracker.Record` | gateway/src/lib/top_k_tracker.rs:34-62 | the counts are those of the summary of everything recorded since the last reset |
| `TopK.TopKTracker.MakeRoom` | gateway/src/lib/top_k_tracker.rs:41-55 | every count is one lower and the zeros are gone |
| `TopK.TopKTracker.DecrementAll` | gateway/src/lib/top_k_tracker.rs:44-50 | every count is one lower and the returned keys are exactly those that reached zero |
| `TopK.TopKTracker.TopK` | gateway/src/lib/top_k_tracker.rs:65-77 | min(k, tracked) distinct keys with their counts, in descending order, none better left out |
| `TopK.TopKTracker.Reset` | gateway/src/lib/top_k_tracker.rs:79-81 | nothing recorded |
| `TopK.DecrementCost` | gateway/src/lib/top_k_tracker.rs:44-55 | a decrement round lowers the sum of the counts by exactly the number of tracked keys |
| `TopK.RecordCost` | gateway/src/lib/top_k_tracker.rs:34-62 | what one record does to the sum, the number and the positivity of the counts |
| `TopK.RecordsAreConserved` | gateway/src/lib/top_k_tracker.rs:34-62 | (sum of counts) + capacity * rounds + refused = records, for every log; at most capacity keys, none at zero |
| `TopK.CountBrackets` | gateway/src/lib/top_k_tracker.rs:34-62 | count <= true frequency <= count + rounds, for every item |
| `TopK.HeavyHittersAreTracked` | gateway/src/lib/top_k_tracker.rs:11-62 | the error of every count is at most records / capacity, and every item more frequent than that is tracked |
| `TopK.TopKIsApproximatelyRight` | gateway/src/lib/top_k_tracker.rs:34-77 | an item left out is at most records / capacity more frequent than any item returned; if fewer than k came back it is no heavy hitter |
| `Sorting.SortIsOrderedPermutation` | gateway/src/lib/top_k_tracker.rs:71-72 | sorting gives an ordered permutation |
| `Sorting.SelectTop` | gateway/src/lib/contention_tracker.rs:195-197 | whatever order the entries were collected in, sort-then-truncate keeps n of them, in order, and cuts none that ranks strictly before a kept one |
| `Lifecycle.BlockLifecycleTracker.constructor` | gateway/src/lib/block_lifecycle.rs:229-236 | an empty tracker |
| `Lifecycle.BlockLifecycleTracker.OnBlockProposed` | gateway/src/lib/block_lifecycle.rs:267-287 | one more event of the run, and the returned update is the one appended to its stream |
| `Lifecycle.BlockLifecycleTracker.AdvanceStage` | gateway/src/lib/block_lifecycle.rs:311-380 | the tracker and the emitted update follow the function of the tracker value whose lookup, transition and update the next rows state |
| `LifecycleStream.AdvanceEmitsIff` | gateway/src/lib/block_lifecycle.rs:312-333 | in any tracker: an advance emits exactly when it carries the hash of an active block, or else a number indexed to one, and that block stands below the new stage |
| `LifecycleStream.AdvanceDoes` | gateway/src/lib/block_lifecycle.rs:319-376 | the block found is announced with its own hash, number, old stage, times and metadata, goes to that stage or leaves when it is terminal, and no other block changes |
| `LifecycleStream.NumberAdvancesItsBlock` | gateway/src/lib/block_lifecycle.rs:311-376 | over every run with fresh hashes and no number reused while indexed: an event with an unknown hash and a number advances the unfinished block announced under it, exactly if that block stands below the new stage, and reports its metadata |
| `LifecycleStream.NumberIsIgnored` | gateway/src/lib/block_lifecycle.rs:319-328 | and it emits nothing when no unfinished block was announced under that number |
| `LifecycleStream.NumberIsEnough` | gateway/src/lib/server.rs:1276-1287 | a run in which a verification that carries only the number verifies its block |
| `Lifecycle.BlockLifecycleTracker.CompleteBlock` | gateway/src/lib/block_lifecycle.rs:356-366 | the popping loop equals the recursive eviction |
| `Lifecycle.BlockLifecycleTracker.OnExecutionEnd` | gateway/src/lib/block_lifecycle.rs:291-306 | one more event of the run |
| `Lifecycle.BlockLifecycleTracker.RecordTransaction` | gateway/src/lib/block_lifecycle.rs:372-379 | one more event of the run |
| `Lifecycle.BlockLifecycleTracker.GetActiveUpdates` | gateway/src/lib/block_lifecycle.rs:422-439 | each active block exactly once, with its stage and age, in order of block number |
| `LifecycleTraces.RunIsWellFormed` | gateway/src/lib/block_lifecycle.rs:267-369 | in every run active blocks are filed under their own hash, are not terminal, and have timestamps for Proposed and their stage and none beyond it |
| `LifecycleTraces.LifecycleTraceIff` | gateway/src/lib/block_lifecycle.rs:267-369 | in every run the updates about a hash form a proper life (Proposed first, each from = previous to, strictly rising, nothing after a terminal stage) exactly when the hash was proposed at most once |
| `LifecycleStream.BlocksLiveInOrder` | gateway/src/lib/block_lifecycle.rs:14-56 | the stages announced for a block proposed at most once spell Proposed, perhaps Voted, perhaps Finalized, and perhaps Verified or Rejected, but not both |
| `LifecycleStream.TimesAreNotNegative` | gateway/src/lib/block_lifecycle.rs:93-117 | over every run whose clock never goes back, no update reports a negative age or a negative time in a stage |
| `LifecycleTraces.ChainRises` | gateway/src/lib/block_lifecycle.rs:41-47 | read pairwise: stages rise strictly, only the last may be terminal |
| `LifecycleTraces.TimesTelescope` | gateway/src/lib/block_lifecycle.rs:100-116 | the reported stage times of a block sum to its reported age; a rejection adds none |
| `LifecycleTraces.UpdateExtends` | gateway/src/lib/block_lifecycle.rs:335-354 | the time reported on a transition is the difference of the ages reported before and after it, or none for a rejection |
| `LifecycleTraces.StageIsLastAnnounced` | gateway/src/lib/block_lifecycle.rs:244-254 | the current stage of a hash is the last stage announced for it; none is known only before the first or after a terminal announcement |
| `LifecycleTraces.TagIsAnnouncedStage` | gateway/src/lib/block_lifecycle.rs:257-260 | an event naming an indexed number is tagged with the last stage announced for the live block found there; other events are not tagged |
| `LifecycleTraces.EvictTakesFromFront` | gateway/src/lib/block_lifecycle.rs:360-364 | eviction keeps the newest retained blocks and drops exactly the index entries whose number belongs to an evicted one |
| `LifecycleTraces.IndexIsSound` | gateway/src/lib/block_lifecycle.rs:284-285 | with fresh hashes, in every run, every number entry leads to an active or retained block with that number |
| `LifecycleTraces.ProposeIndexIff` | gateway/src/lib/block_lifecycle.rs:284-285 | proposing a fresh hash keeps the index complete exactly when its number is not in the index |
| `LifecycleTraces.IndexIsExactIff` | gateway/src/lib/block_lifecycle.rs:284-366 | throughout a run with fresh hashes the index holds exactly the active and retained blocks, across completion and eviction, if and only if no proposal reuses a number still in the index |
| `LifecycleTraces.EntryDroppedIff` | gateway/src/lib/block_lifecycle.rs:360-364 | which entries a terminal transition drops, in any state |
| `LifecycleTraces.EvictionForgetsTheOtherFork` | gateway/src/lib/block_lifecycle.rs:319-366 | at any retention limit from 1 on, 128 included: with two forks of one number, evicting the first forgets the second, and a verification that carries only the number is then ignored |
| `LifecycleTraces.UpdatesReproduceActiveSet` | gateway/src/lib/block_lifecycle.rs:267-369 | in every run, folding the emitted updates reproduces the active set with stages and numbers |
| `LifecycleTraces.ListingIsTheView` | gateway/src/lib/block_lifecycle.rs:419-439 | the listing for a connecting client folds to the active set |
| `LifecycleTraces.LateJoinerCatchesUp` | gateway/src/lib/block_lifecycle.rs:419-439 | a client that starts from the listing and follows the later updates ends with the same table as one that followed the whole stream |
| `LifecycleStream.ListingReports` | gateway/src/lib/block_lifecycle.rs:419-439 | over every run with fresh hashes and no number reused while indexed: each listed entry is about a block announced and not finished, with the stage and age last announced and the metadata reported for its number |
| `LifecycleStream.AnnouncedIsListed` | gateway/src/lib/block_lifecycle.rs:419-439 | and every such block is listed |
| `LifecycleTraces.OneStepReports` | gateway/src/lib/block_lifecycle.rs:289-379 | an event that names a number changes the metadata of the block found under it and of no other |
| `LifecycleTraces.MetadataIsReported` | gateway/src/lib/block_lifecycle.rs:289-379 | in every run with fresh hashes and no number reused while indexed, an active block holds exactly the transactions and the latest execution results reported for its number since its proposal |
| `LifecycleTraces.MetadataKeepsStages` | gateway/src/lib/block_lifecycle.rs:289-306 | execution end and transaction records change no public stage |
| `Contention.ContentionTracker.constructor` | gateway/src/lib/contention_tracker.rs:97-108 | no block, empty maps |
| `Contention.ContentionTracker.OnBlockStart` | gateway/src/lib/contention_tracker.rs:111-120 | everything reset for the new block |
| `Contention.ContentionTracker.OnTxnStart` | gateway/src/lib/contention_tracker.rs:123-126 | the start is stored and counted |
| `Contention.ContentionTracker.OnTxnEnd` | gateway/src/lib/contention_tracker.rs:129-131 | the end is stored |
| `Contention.ContentionTracker.OnStorageAccess` | gateway/src/lib/contention_tracker.rs:134-150 | the three maps stay equal to their definitions over the access log of the block |
| `Contention.ContentionTracker.TotalTxTime` | gateway/src/lib/contention_tracker.rs:158-164 | the sum, over transactions that started and ended, of end minus start, floored at zero |
| `Contention.ContentionTracker.ContendedSlotRows` | gateway/src/lib/contention_tracker.rs:176-193 | one row per slot touched by two or more transactions |
| `Contention.ContentionTracker.CountEdges` | gateway/src/lib/contention_tracker.rs:261-275 | for each unordered pair of contracts, the number of transactions whose contract set holds both, whatever the iteration order |
| `Contention.ContentionTracker.OnBlockEnd` | gateway/src/lib/contention_tracker.rs:153-302 | the report in plain figures about the accesses of the block: times, counts, the at most 20 slots, 15 contracts and 15 edges, each row with its figures, in falling order, and nothing left out that ranks above a listed row |
| `ContentionReport.SlotsAreRanked` | gateway/src/lib/contention_tracker.rs:176-197 | listed slots have two or more transactions, fall in transactions, and every contended slot left out has at most as many as every listed one |
| `ContentionReport.ContractsAreRanked` | gateway/src/lib/contention_tracker.rs:207-256 | listed contracts fall in contended slots and then in the cross-multiplied share, and none left out comes before a listed one |
| `ContentionReport.EdgesAreRanked` | gateway/src/lib/contention_tracker.rs:261-287 | listed pairs fall in shared transactions, and none left out has more than a listed one |
| `ContentionReport.AccessesAddUp` | gateway/src/lib/contention_tracker.rs:213-219 | the accesses of a contract are those, with or without a transaction, of its slots that some transaction touched |
| `ContentionReport.TxTimesAre` | gateway/src/lib/contention_tracker.rs:158-164 | a transaction counts for end minus start, or nothing if the clock went back, exactly if it has both |
| `Contention.GroupByContract` | gateway/src/lib/contention_tracker.rs:207-225 | the three accumulators equal, per contract, its slots, its contended slots and its accesses |
| `Contention.ContractStats` | gateway/src/lib/contention_tracker.rs:227-249 | one row per contract that has a contended slot, with those figures |
| `Contention.HotRows` | gateway/src/lib/contention_tracker.rs:227-249 | one row per contract with a nonzero contended count, from the three accumulators |
| `Contention.AddPairs` | gateway/src/lib/contention_tracker.rs:264-274 | the nested loops add one to each unordered pair of the set and to nothing else |
| `Contention.Listing` | gateway/src/lib/contention_tracker.rs:264-264 | the elements of a set, each once, in some order |
| `Contention.EdgeListing` | gateway/src/lib/contention_tracker.rs:277-284 | one row per counted edge |
| `ContentionReport.OrdersAreTotal` | gateway/src/lib/contention_tracker.rs:251-255 | the three orders are total preorders, so the selections are well defined up to ties |
| `Contention.SlotRowsCount` | gateway/src/lib/contention_tracker.rs:196-196 | the number of contended rows is the number of contended slots |
| `ContentionLog.AppendCounts` | gateway/src/lib/contention_tracker.rs:142-143 | the incremental access counter follows its definition |
| `ContentionLog.AppendSlotTxns` | gateway/src/lib/contention_tracker.rs:146-147 | the incremental slot-to-transactions map follows its definition |
| `ContentionLog.AppendTxnContracts` | gateway/src/lib/contention_tracker.rs:146-148 | the incremental transaction-to-contracts map follows its definition |
| `ContentionLog.SlotTxnsWithinCounts` | gateway/src/lib/contention_tracker.rs:142-149 | a slot with transactions has between one and as many transactions as accesses |
| `ContentionLog.ContractsAgreeWithSlots` | gateway/src/lib/contention_tracker.rs:145-149 | a contract is in the set of a transaction exactly when some slot of it lists that transaction |
| `ContentionLog.ContractsPartitionSlots` | gateway/src/lib/contention_tracker.rs:207-225 | summed over all contracts, slots give the unique slots, contended slots the contended slots, and accesses the accesses of the attributed slots |
| `ContentionLog.EdgeCountsGrow` | gateway/src/lib/contention_tracker.rs:263-275 | one more transaction adds one to each pair of its contracts |
| `ContentionLog.PairCount` | gateway/src/lib/contention_tracker.rs:265-266 | m contracts have m(m-1)/2 pairs |
| `ContentionLog.EdgesCountPairs` | gateway/src/lib/contention_tracker.rs:261-275 | the edge counts sum to the pairs of all transactions, m(m-1)/2 for m contracts |
| `Sums.FibersPartition` | gateway/src/lib/contention_tracker.rs:211-225 | adding up groups is adding up everything, whatever the walking order |
| `EventFilter.ChunksAreWordsIff` | gateway/src/lib/event_filter.rs:102-105 | all pieces are 32 bytes, so the conversion does not panic, exactly when the length is a multiple of 32 |
| `EventFilter.TopicsMatchIsBytePrefix` | gateway/src/lib/event_filter.rs:102-105 | the chunked topic test accepts exactly the logs whose topic bytes start with the filter words, and panics exactly when the topics are not whole words |
| `EventFilter.AllMatchIff` | gateway/src/lib/event_filter.rs:127-139 | a spec accepts exactly when every field filter does |
| `EventFilter.AnyMatchesIff` | gateway/src/lib/event_filter.rs:199-205 | a filter accepts exactly when some spec does |
| `EventFilter.FieldFilterIff` | gateway/src/lib/event_filter.rs:90-113 | bounds are inclusive, each kind reads its own field of a log, topics compare as a byte prefix, and nothing but a log passes |
| `EventFilter.DecideIff` | gateway/src/lib/event_filter.rs:205-223 | for every filter and every event with whole topic words: accepted exactly if the filter is empty, or it names native transfers and the event is a call that moves value, or a spec of the same name asks no more than the event gives |
| `EventFilter.EqIsEquivalence` | gateway/src/lib/event_filter.rs:160-176 | equality of filters is an equivalence |
| `EventFilter.EqualFiltersAgreeIff` | gateway/src/lib/event_filter.rs:160-206 | equal filters decide an event alike, for all of them, exactly when its topics are whole words |
| `EventFilter.ConcatenationIsOr` | gateway/src/lib/event_filter.rs:190-206 | two non-empty filters side by side accept what either accepts |
| `Subscription.HigherMinStageWantsLess` | gateway/src/lib/server.rs:309-334 | raising min_stage only removes events |
| `Subscription.WantedIff` | gateway/src/lib/server.rs:309-335 | the decision is the conjunction of base filter, stage gate and, when names are given, names and field filter |
| `Subscription.FieldFilterRemovesIff` | gateway/src/lib/server.rs:323-333 | adding a field filter to a subscription with names takes away exactly the events it declines |
| `Subscription.FieldFilterCountsIff` | gateway/src/lib/server.rs:323-333 | a field filter can change anything exactly when names are given |
| `Subscription.UngatedIff` | gateway/src/lib/server.rs:313-322 | the events no min_stage holds back are exactly those of untracked and of rejected blocks |
| `Subscription.FullStreamChannels` | gateway/src/lib/server.rs:236-325 | the channels that start with the full event stream are exactly All, Contention and Lifecycle |
| `Uint256.Uint256FromC` | gateway/src/lib/serializable_event.rs:135-141 | the buffer loop and the little-endian read give the sum of limb i times 2^(64 i) |
| `Uint256.BytesRoundTrip` | gateway/src/lib/serializable_event.rs:140-140 | little-endian bytes and back is the identity below 256^n |
| `Uint256.LimbsRoundTrip` | gateway/src/lib/serializable_event.rs:135-141 | the value is below 2^256 and its four limbs are recovered from it |
| `Uint256.ValueRoundTrip` | gateway/src/lib/serializable_event.rs:135-141 | every number below 2^256 is the value of its limbs |

## Left out

- Axum, tokio and WebSocket plumbing, heartbeats and timeouts, REST handlers, Prometheus metrics, shutdown, IP
  parsing: input and output without a deep property. Closing of a connection is modelled only as the closed channel.
- The event source (gateway/src/lib/event_listener.rs) and the field-by-field event conversion: an event is its
  name, commit stage and the payload fields filters look at.
- JSON: a serialized message is an opaque string and the serializer a parameter. That a replayed event keeps the
  commit stage of its publication, while a live one is tagged when processed, is therefore not modelled.
- Broadcast lag is modelled as overwriting the oldest unread item, at an arbitrary capacity; how tokio rounds its
  capacity is not. Restart of the gateway (seqnos starting again from 1) is not modelled: cursors come from the
  current run.
- One handler at a time against the forwarder. Handlers only read the shared history and counter and each has its
  own channel receiver, so they do not affect one another.
- Contents of snapshots: only the moment they were built, their seqno and the number of their messages. A snapshot built
  from trackers that are updated before the item is numbered can hold more than that moment says.
- `Reconnection.JourneyIsCompleteIff` and `Reconnection.UnsafeEndLosesForGood` take it that what one connection has
  delivered was published before the next one goes live, as is so for the connections of one client in turn.
- In `DroppedFrames`, dropped snapshot messages are not counted as the first frame dropped, since they carry no item.
- Changing the subscription between drains is allowed in the cursor theorem (any outcome per item), but the
  parsing of subscribe messages is not modelled.
- The `break` after a failed metric send (gateway/src/lib/server.rs:906) leaves only the inner loop; the model
  keeps the answer of `send_or_drop` and does not say the client is disconnected.
- Executed events in `Items` carry whole topic words, as EVM logs do; `EventFilter` covers the other case, where
  the conversion panics.
- Floating point: durations are integer nanoseconds, and ratios are numerator and denominator. Contracts are
  compared by ratio only when their contended counts are equal, where cross-multiplication gives the same order
  up to rounding.
- Widths: u32 and u64 counters are unbounded. Limbs, bytes and the 256-bit result have their exact ranges.
- The standard library's sort is a stable insertion sort here; only its contract is used.
- Addresses, hashes and transaction indices are numbers that are compared and nothing else.
- TPS tracking, SDK back-off and listener sets, the webhook relay, the Python and command-line clients: easy or
  duplicate material.
