# Sovereign Watch: a verified model of its hard core

Sovereign Watch fuses live tracks (ADS-B, AIS, satellites), radio receivers and open-source
intelligence into one map. This project models the parts of it whose correctness depends on
state that changes step by step, on interleavings, or on algorithms over sequences, and proves
what those parts keep over whole runs. Nothing here was executed; the Dafny verifier is the only
judge. `dafny verify dfyconfig.toml` checks the project.

| file | what it models |
|---|---|
| `Framing.dfy` | the sending half of the WebSocket wire format: the greedy coalescer of the API |
| `Worker.dfy` | the receiving half: the splitter of the browser worker, and the round trip |
| `LiveCache.dfy` | the last-value cache with age limit, hard cap and lazy pruning |
| `Hub.dfy` | the broadcast hub: cache, one drop-oldest queue per client, snapshot replay, batch draining |
| `Delivery.dfy` | what a client of the hub receives, told from the steps of a run alone |
| `RateLimit.dfy` | the two Redis rate limiters, one with a fixed window, one that renews its expiry |
| `Squelch.dfy` | the hysteresis gate of the KiwiSDR client |
| `Debounce.dfy` | the cancel-and-replace command table of the KiwiSDR client and its disconnect |
| `Teardown.dfy` | the disconnect comes to an end and leaves no task of its table running |
| `NewsRefresh.dfy` | the leased stale-while-revalidate refresh of the news feed by several workers |
| `Freshness.dfy` | one refresh from the stale read to its end, whatever others do in between |
| `Migrate.dfy` | the SQL migration runner that may die between any two statements |
| `Tokens.dfy` | accounts, logins, password versions and token validity |
| `Accounts.dfy` | who may log in, how long a token lives, who may be deactivated, told from the steps of a run |
| `Passes.dfy` | the segmentation of a satellite trajectory into passes |
| `Patterns.dfy` | greedy matching of escalation sequences |
| `Risk.dfy` | the composite risk score |
| `Replay.dfy` | the balanced sampling query of track replay |
| `Options.dfy`, `Collections.dfy` | the optional value; shared facts about sequences and sets |

**Shape.** Where the source changes state, a pure `Next(state, step)` says what one atomic step
does, a class with the source's fields performs the steps, and each of its methods is proved equal
to `Next` on the class's `View()`. A step is a stretch of the event loop without a suspension, or
one statement at Redis or PostgreSQL. Results about runs quantify over every finite sequence of
steps; a step that is not enabled changes nothing. Ghost fields (logs, positions, step numbers)
only record what happened. Where the source is a loop over local variables, a method with that
loop is proved against a function, and the lemmas are about the function. Numbers are unbounded
integers, or exact reals where the source uses floating point.

**Where code and comments differ**, the model follows the code.

- `js8call/kiwi_client.py:420` says a reconfigured squelch starts open; line 421 closes it when the
  squelch is enabled (`Squelch.SilentUntilOpened`).
- `backend/api/core/auth.py:51-52` speaks of a fixed window and of calls within `window` seconds;
  lines 61-62 renew the expiry on every call, so a steady caller is locked out although no window
  holds more than two of its calls (`RateLimit.SteadyCallerLockedOut`).
- `backend/api/routers/tracks.py:452-453` claims that replay covers the full interval; nine dense
  buckets and a limit of 10 lose the four oldest (`Replay.EighteenRowsFourLost`; exactly which
  buckets are covered is `Replay.BucketCoveredExactly`).
- `backend/api/services/broadcast.py:44` caps frames at `_MAX_BATCH_BYTES`; the cap is on payload
  bytes, to which the magic and four bytes per message come on top. A frame exceeds it exactly when
  the payload leaves them no room, by at most 515 bytes (`Framing.SendSize`, `Framing.FrameExceedsCap`).
- `backend/api/services/broadcast.py:332-337` keeps the freshest entries; with equal receive times the
  frame just recorded can be the one dropped (`LiveCache.TiedTimesCanEvictTheNewest`), exactly when
  `LiveCache.NewestKeptExactly` says, and the moment of a sweep can show (`LiveCache.SweepsShowInTies`).
- `js8call/kiwi_client.py:631` clears the command table; a request that arrives while the
  disconnect awaits a cancelled task is dropped from the table without being cancelled
  (`Debounce.RequestDuringDisconnectEscapes`; `Debounce.OneLiveTaskExactly` says what that costs).
- `backend/api/routers/news.py:241` deletes the refresh lock whoever holds it
  (`NewsRefresh.LateReleaseFreesForeignLock`); when the lease does work is `NewsRefresh.OneRefreshExactly`.
- `backend/api/routers/auth.py:330-340` counts active admins before a deactivation; the count and
  the update are separate statements (`Tokens.RacingRemovalsLeaveNoAdmin`, and exactly when in
  `Tokens.RaceExactly`); an update of the last one is not guarded (`Tokens.UpdateStripsExactly`).

## Model

| member | source | states |
|---|---|---|
| Framing.LengthFieldNeverOverflows | backend/api/services/broadcast.py:50-56 | In every frame of more than one record each message is at most 60,000 bytes, so its length fits the 4-byte field; larger messages can only travel alone |
| Framing.GreedyGroupsAreValid | backend/api/services/broadcast.py:46-76 | Every group the coalescer emits is an alert, a single message, or at most 128 messages within 60,000 payload bytes |
| Framing.GreedyKeepsOrder | backend/api/services/broadcast.py:37-77 | The groups, flattened, are exactly the messages and alerts of the input in order; tuples with another tag are skipped |
| Framing.FlushPending | backend/api/services/broadcast.py:46-59 | Emits nothing, the bare message, or the magic followed by length-prefixed records, as the encoding of one group |
| Framing.AddItem | backend/api/services/broadcast.py:66-75 | One round of the loop splits the sends still to come into those made now and those of the remaining items and the new pending run |
| Framing.CoalesceOutgoing | backend/api/services/broadcast.py:37-77 | The loop with its pending list and byte counter emits exactly the encoded greedy groups |
| Framing.EncodeLength | backend/api/services/broadcast.py:46-59 | Every group costs exactly one send |
| Worker.Le32RoundTrip | frontend/src/workers/batchFraming.ts:38-42 | Reading the four little-endian bytes gives back the length |
| Worker.SplitRecords | frontend/src/workers/batchFraming.ts:36-48 | Splitting the records of a frame returns the messages before the first empty one, and all of them if none is empty |
| Worker.SplitPrefix | frontend/src/workers/batchFraming.ts:36-48 | Whatever bytes follow the records of messages that are not empty, those messages are read first |
| Worker.TruncatedTailDropped | frontend/src/workers/batchFraming.ts:32-48 | A record cut off anywhere at the end of a frame is dropped, and the ones before it are not |
| Worker.MagicsExactly | frontend/src/workers/batchFraming.ts:11-30 | Which three bytes make a TAK frame and which a batch frame |
| Worker.BatchRead | frontend/src/workers/batchFraming.ts:36-48 | A shared frame carries the messages before the first empty one |
| Worker.GroupRead | frontend/src/workers/batchFraming.ts:14-48 | A send of messages that are not empty and do not start like a batch frame carries exactly its contents |
| Worker.FormatRoundTrip | backend/api/services/broadcast.py:25-77 | For every such input, whatever its bytes, splitting all sends by the documented format gives back the visible items, in order |
| Worker.ReadsTakMessages | frontend/src/workers/tak.worker.ts:52-71 | Of such input the browser reads exactly the alerts and the TAK messages, in order; other messages vanish without harming their neighbours |
| Worker.RoundTripExactly | backend/api/services/broadcast.py:25-77 | For every input, the browser reads back exactly the visible items, in order, if and only if every message is a TAK message |
| Worker.RoundTrip | backend/api/services/broadcast.py:25-34 | Messages with the TAK prefix, with any alerts between them, always survive encoding and decoding, in order |
| Worker.EmptyMessageBreaksRoundTrip | frontend/src/workers/batchFraming.ts:43 | A concrete input: an empty message before a TAK message makes the browser lose that one too |
| Framing.FrameSize | backend/api/services/broadcast.py:50-56 | A shared frame has its payload, the magic and four bytes per message, at most 60,515 bytes, and exceeds the 60,000 if and only if its payload leaves no room for the rest |
| Framing.SendSize | backend/api/services/broadcast.py:37-77 | For every input each send is an alert, a lone message of the input, or a shared frame of that size |
| Framing.FrameExceedsCap | backend/api/services/broadcast.py:43-44 | Any two messages of 60,000 bytes together go out as one frame of 60,011 |
| Framing.LargestFrame | backend/api/services/broadcast.py:43-44 | The bound of 60,515 bytes is reached |
| Framing.ShorterPendingNeverWorse | backend/api/services/broadcast.py:66-76 | Starting from a suffix of the pending run never needs more sends, and saves at most one |
| Framing.GreedyIsOptimal | backend/api/services/broadcast.py:37-77 | The coalescer's own grouping is permitted, and no order-preserving permitted grouping uses fewer sends |
| LiveCache.RecordKeepsLatest | backend/api/services/broadcast.py:314-337 | Whatever the clock does, a recorded event leaves every cached entry equal to the last frame recorded for its entity |
| LiveCache.CappedForgets | backend/api/services/broadcast.py:333-337 | The cap leaves exactly cap entries, and drops none that is newer than a kept one |
| LiveCache.RecordIsFaithful | backend/api/services/broadcast.py:314-337 | For a clock that never runs backwards, one record step keeps the relation of cache to log: distinct, latest, at most cap entries, and what is missing is stale or no newer than any of cap cached entries |
| LiveCache.FaithfulSnapshot | backend/api/services/broadcast.py:339-343 | The snapshot of such a cache is a choice of the cap most recently seen entities among those alive, or all of them |
| LiveCache.SweepsExactly | backend/api/services/broadcast.py:322-337 | A recorded event sweeps the cache if and only if it is beyond the cap or a whole interval has passed since the last sweep; a sweep leaves no stale entry |
| LiveCache.CacheRefinesLog | backend/api/services/broadcast.py:314-343 | For every log whose clock never runs backwards and any later moment, the cache holds at most cap entries and the snapshot is such a choice; it is the set of latest frames of live entities with fewer than cap entities seen after them if and only if no entities are tied where the cap cuts |
| LiveCache.StrictTimesNeverTie | backend/api/services/broadcast.py:318-319 | With strictly increasing receive times there is never such a tie, so the snapshot is a function of the log |
| LiveCache.PruneTimingUnobservable | backend/api/services/broadcast.py:322-337 | The sweep interval and the moment of the last sweep change neither the size of a snapshot nor anything but entities tied where the cap cuts; without such a tie they never show |
| LiveCache.SweepsNeedStaleness | backend/api/services/broadcast.py:322-337 | In a log that spans no more than the age limit the whole cache, with its order, is the same under every sweep interval, ties or not |
| LiveCache.SweepsShowInTies | backend/api/services/broadcast.py:322-337 | A concrete log with such a tie, on which two sweep intervals give different snapshots |
| LiveCache.NewestKeptExactly | backend/api/services/broadcast.py:314-337 | The frame just recorded stays cached if and only if fewer than cap entries of the same instant stand before its place in the dictionary |
| LiveCache.TiedTimesCanEvictTheNewest | backend/api/services/broadcast.py:333-337 | A concrete log: with equal receive times and a cap of one, the frame just recorded is evicted |
| Hub.NextKeepsInv | backend/api/services/broadcast.py:105-126 | Every step of feed, alerts and workers keeps the invariant tying queues, wire, snapshots and cache to the event log |
| Hub.RunKeepsInv | backend/api/services/broadcast.py:267-410 | The invariant holds after every finite interleaving |
| Hub.QueueDiscipline | backend/api/services/broadcast.py:240-251 | Per client: the queue is a contiguous suffix of everything enqueued, the wire carries the snapshot and then an increasing selection of it, and enqueued = delivered + in flight + queued + dropped |
| Hub.DropsOnlyWhenFull | backend/api/services/broadcast.py:291-302 | A step drops an item of a client if and only if it enqueues into a queue of exactly 4096 items, and then exactly one |
| Hub.SnapshotShowsLatest | backend/api/services/broadcast.py:339-343 | A snapshot is safe to send and, read in order, ends on the last frame recorded for each of its entities |
| Hub.StepKeepsQueue | backend/api/services/broadcast.py:291-302 | No step of any client or feed breaks the suffix shape and the bound of a client's queue |
| Hub.PipelineShows | backend/api/services/broadcast.py:380-410 | Received, in-flight and queued items together end on an entity's last enqueued frame unless that was dropped, and otherwise on the snapshot's |
| Hub.LateJoinerConsistency | backend/api/services/broadcast.py:267-410 | In every interleaving, for every client and every entity whose last queued frame was not dropped, the pipeline ends on the last frame published for it since the client registered, or else on the last one ever recorded if its snapshot contained it, or else on nothing |
| Hub.NoOverflowNoStaleness | backend/api/services/broadcast.py:267-410 | A client without an overflow drop is right about every entity |
| Delivery.CacheIsReplay | backend/api/services/broadcast.py:276-320 | The hub's log and cache are the published events and their last-value cache, whatever else happened in between |
| Delivery.EnqueuedIsTraffic | backend/api/services/broadcast.py:240-302 | From the step that registers a client until it leaves, what was ever queued for it is exactly the feed messages and alerts sent since, in order |
| Delivery.LeavingForgets | backend/api/services/broadcast.py:105-126 | Leaving removes that client and nobody else, and whoever comes back starts afresh |
| Delivery.ReplaySendsFreshEntries | backend/api/services/broadcast.py:339-361 | The worker's first act sends each cached entity within its age limit, once, and nothing else |
| Delivery.LiveIsFresh | backend/api/services/broadcast.py:314-343 | An entity last published within the age limit, with no more entities seen since than the cap, is fresh in the cache, whenever the sweeps came |
| Delivery.ExpectedIsLatest | backend/api/services/broadcast.py:267-361 | For an entity published since the client's registration, or fresh in the cache at the step of its replay, the frame it should show is the last one ever published, as long as no frame without a uid bears its name |
| Delivery.ShortTrafficDropsNothing | backend/api/services/broadcast.py:291-302 | A client that at most 4096 items were sent to since it registered lost none |
| Delivery.ExactDelivery | backend/api/services/broadcast.py:267-410 | What such a client has received, what is in flight and what is queued are together the snapshot of the cache and then all traffic since its registration, each item once and in order |
| Delivery.LateJoinerIsRight | backend/api/services/broadcast.py:345-361 | Such a client ends on the last frame ever published for every entity published since its registration or fresh in the cache at its replay |
| Delivery.WorkerDelivers | backend/api/services/broadcast.py:380-410 | Left to work, a worker gets everything out, in at most one step per unsent send and two per queued item, and what arrives is exactly the pipeline |
| Delivery.EverythingArrives | backend/api/services/broadcast.py:345-410 | Once its worker is done, such a client has received exactly the snapshot and then the traffic |
| Hub.BroadcastManager.constructor | backend/api/services/broadcast.py:84-98 | A new hub is the empty run: no clients, empty cache, last sweep at zero |
| Hub.BroadcastManager.Connect | backend/api/services/broadcast.py:105-110 | Registers the client with an empty queue and changes nothing else |
| Hub.BroadcastManager.Disconnect | backend/api/services/broadcast.py:112-126 | Removes that client only |
| Hub.BroadcastManager.PruneCache | backend/api/services/broadcast.py:322-337 | The statement sequence with its early return is the pruning function |
| Hub.BroadcastManager.RecordLive | backend/api/services/broadcast.py:314-320 | Stores the frame under its uid and prunes; a blank uid changes nothing |
| Hub.BroadcastManager.EnqueueOne | backend/api/services/broadcast.py:292-300 | Appends to one queue, removing its oldest item first when full; other clients unchanged |
| Hub.BroadcastManager.EnqueueToAll | backend/api/services/broadcast.py:291-302 | The loop enqueues for every client exactly once, in whatever order it visits them |
| Hub.BroadcastManager.Consume | backend/api/services/broadcast.py:276-302 | Caching and enqueuing one feed message is one atomic step |
| Hub.BroadcastManager.ConsumeAlert | backend/api/services/broadcast.py:217-251 | One alert is enqueued for every client as a tagged item |
| Hub.BroadcastManager.SendSnapshot | backend/api/services/broadcast.py:345-361 | The worker's first act turns the fresh cache entries into sends |
| Hub.BroadcastManager.SendOne | backend/api/services/broadcast.py:403-410 | A completed send leaves the unsent list at its front and reaches the wire |
| Hub.BroadcastManager.DrainBatch | backend/api/services/broadcast.py:394-404 | Takes up to 128 items off the front of the queue, in order, and coalesces them |
| RateLimit.RateLimiter.Check | backend/api/services/rate_limit.py:11-44 | One call to either limiter: the key Redis holds afterwards, whether the call passes (also when Redis fails), and the Retry-After seconds as Redis rounds them |
| RateLimit.WithinWindow | backend/api/services/rate_limit.py:11-19 | Within one counter window at most limit minus the current count is admitted |
| RateLimit.WindowAdmitsExactlyLimit | backend/api/services/rate_limit.py:11-44 | With Redis answering, n calls of one window are admitted up to exactly min(n, what is left) |
| RateLimit.FixedWindowBound | backend/api/services/rate_limit.py:11-44 | From every key state and over every call trace, any half-open interval one window long admits at most 2*limit - 1 calls |
| RateLimit.FixedWindowBoundIsSharp | backend/api/services/rate_limit.py:11-44 | For every limit and every window of two ticks or more some trace reaches 2*limit - 1 |
| RateLimit.ResetNeverPostponed | backend/api/services/rate_limit.py:11-19 | No call before the reset, admitted or rejected, moves it |
| RateLimit.TtlRepaired | backend/api/services/rate_limit.py:14-17 | The first call that reaches Redis gives a missing, expired or TTL-less counter a full window, which later calls keep |
| RateLimit.FixedSimulatesRenewing | backend/api/core/auth.py:56-72 | On one trace the renewing counter is never below the fixed one, so every call it lets through the fixed limiter lets through too |
| RateLimit.RenewingBound | backend/api/core/auth.py:56-72 | The renewing limiter admits at most limit calls in any interval one window long |
| RateLimit.RenewingCountsStreak | backend/api/core/auth.py:60-64 | From every key and over every trace, with replies lost or calls not reaching Redis, the renewing counter is the length of the current run of calls at Redis with gaps below the window, continued from the key when the run reaches back to it |
| RateLimit.RenewingAdmitsByStreak | backend/api/core/auth.py:60-72 | A call is let through if and only if no answer arrives or it is among the first limit calls of its unbroken run |
| RateLimit.SteadyCallerLockedOut | backend/api/core/auth.py:49-55 | Steady calls a window less one tick apart are rejected although no three of them share a window |
| Squelch.Configured | js8call/kiwi_client.py:411-421 | Enabling closes the gate and disabling opens it; the thresholds stay ordered and within 0..150, sensible values are taken as given, and others are cut off at the nearest bound |
| Squelch.SampledExactly | js8call/kiwi_client.py:763-769 | An enabled gate opens at its upper threshold, closes below its lower one and stays in between; a disabled one never moves |
| Squelch.GateIsLastVerdict | js8call/kiwi_client.py:763-769 | The gate equals the verdict of the last sample outside the band, or its start when there is none |
| Squelch.NoChatter | js8call/kiwi_client.py:391-398 | n flips under one configuration need the level to travel at least (n - 1) * (hysteresis + 1) units |
| Squelch.ChatterBoundIsSharp | js8call/kiwi_client.py:763-769 | The bound is met with equality for every n |
| Squelch.SilentUntilOpened | js8call/kiwi_client.py:417-429 | An enabled squelch passes nothing until a sampled level reaches the threshold |
| Squelch.DecimationComposes | js8call/kiwi_client.py:756-769 | After any frames, from any frame count, updating frame by frame has left the gate as the run over every tenth frame's level |
| Squelch.EveryTenthFrame | js8call/kiwi_client.py:757-758 | The gate looks at the level of every tenth frame since the client was created, and at no other |
| Squelch.QuietBandIsSilent | js8call/kiwi_client.py:756-788 | Right after the squelch is enabled, no frame is played until one reaches the threshold |
| Squelch.DisabledPlaysAll | js8call/kiwi_client.py:771-788 | A disabled squelch plays every playable frame and nothing else |
| Squelch.PlayableExactly | js8call/kiwi_client.py:771-788 | Playable are the uncompressed mono frames with at least one whole 16-bit sample and no half one |
| Squelch.Receiver.ReceiveLoop | js8call/kiwi_client.py:749-788 | Over any frames, the loop counts them all, leaves the gate as the run over every tenth frame's level, and plays exactly the playable frames at which that gate is open or disabled, in order |
| Squelch.Receiver.SetSquelch | js8call/kiwi_client.py:411-429 | Leaves the gate as configured, whatever it was |
| Squelch.Receiver.OnFrame | js8call/kiwi_client.py:756-788 | Counts the frame, samples every tenth, and plays exactly the playable frames of an open or disabled gate |
| Debounce.RunKeepsInv | js8call/kiwi_client.py:672-689 | In every interleaving the table maps a name to its latest request, live tasks are in the table, and each task enters its command at most once and not before its delay |
| Debounce.AtMostOneLiveTask | js8call/kiwi_client.py:672-689 | If no request arrives during a disconnect, a name has at most one live task and it is the table's |
| Debounce.QuietRunsHaveNoOrphans | js8call/kiwi_client.py:616-631 | Such disconnects leave no live task behind |
| Debounce.OneLiveTaskExactly | js8call/kiwi_client.py:672-689 | With no disconnect under way, every continuation without requests during disconnects keeps one live task per name if and only if every live task is the table's entry for its name |
| Debounce.DisconnectOrphansExactly | js8call/kiwi_client.py:616-631 | After a disconnect, every such continuation keeps one live task per name if and only if the table it cleared held no live task |
| Debounce.DisconnectMissesOnlyLateRequests | js8call/kiwi_client.py:616-631 | Over a whole disconnect and whatever interleaves with it, the tasks left behind are exactly the live table entries of its last moment, all of them requested after it began |
| Debounce.RequestDuringDisconnectEscapes | js8call/kiwi_client.py:623-631 | A concrete run ending with two live tasks of one name |
| Debounce.CleanupKeepsNewerEntries | js8call/kiwi_client.py:685-687 | The end of a task never removes the entry of another task |
| Debounce.SupersededEarlyNeverRuns | js8call/kiwi_client.py:674-684 | A request superseded before its delay ended never enters its command, in any continuation |
| Debounce.LastRequestRunsOnce | js8call/kiwi_client.py:672-689 | A request that nothing supersedes enters its command at most once, exactly once if it has finished, and can always take its next step when due |
| Debounce.LastRequestCompletes | js8call/kiwi_client.py:679-687 | Started, woken once its delay has passed since, and left to finish, it has run exactly once, whatever else happens in between |
| Teardown.CancellationEndsTask | js8call/kiwi_client.py:679-687 | A cancelled task ends at its next step without entering its command, and drops no table entry but its own |
| Teardown.TasksEndOneWay | js8call/kiwi_client.py:679-687 | A cancelled task neither enters nor completes its command, one that never started runs no cleanup, and an ended task never changes again |
| Teardown.DisconnectCanGoOn | js8call/kiwi_client.py:621-629 | A disconnect is never stuck: some step that furthers it is enabled |
| Teardown.DisconnectEnds | js8call/kiwi_client.py:616-631 | Whatever interleaves, a disconnect is over once the event loop has taken more than two furthering steps per task that was in the table |
| Teardown.DisconnectFinishesTasks | js8call/kiwi_client.py:616-631 | When it is over the table is empty and every task that was in it at the start has finished |
| Debounce.CommandTable.constructor | js8call/kiwi_client.py:672-689 | Starts with no task and an empty table |
| Debounce.CommandTable.DebounceCommand | js8call/kiwi_client.py:672-689 | Cancels the name's pending task and registers a new one as one step |
| Debounce.CommandTable.Wake | js8call/kiwi_client.py:680-682 | The timer step of a task that is due and not cancelled |
| Debounce.CommandTable.EndOf | js8call/kiwi_client.py:683-687 | The finally block, after completion and after cancellation |
| Debounce.CommandTable.StartDisconnect | js8call/kiwi_client.py:616-621 | The tasks to cancel are those in the table at that moment |
| Debounce.CommandTable.CancelOne | js8call/kiwi_client.py:623-629 | Cancels the next unfinished task and waits for it |
| Debounce.CommandTable.ClearTable | js8call/kiwi_client.py:631 | Empties the table; live entries become orphans |
| NewsRefresh.OneRefreshExactly | backend/api/routers/news.py:231-262 | Over every run whose acquisitions do not err, at most one background refresh is in flight at every moment if and only if no waiting trigger asks for the lock while a refresh is past its 120 seconds |
| NewsRefresh.AtMostOneRefresh | backend/api/routers/news.py:231-262 | If every refresh ends within 120 seconds of taking the lock and taking it never errs, at most one background refresh is in flight across all workers |
| NewsRefresh.SecondRefreshExactlyOnOverrun | backend/api/routers/news.py:246-262 | After any run without a failed acquisition that so far kept to one refresh, while that is in flight the next trigger starts a second one if and only if the first has outlived its 120 seconds |
| NewsRefresh.LateReleaseFreesForeignLock | backend/api/routers/news.py:238-243 | A refresh that overran deletes its successor's lock, so a third one starts beside the successor |
| NewsRefresh.OverrunIsReachable | backend/api/routers/news.py:231-262 | A concrete run reaches the state in which that happens |
| NewsRefresh.NextKeepsFeed | backend/api/routers/news.py:219-228 | A step changes the stored feed only by writing a non-empty one |
| NewsRefresh.FeedNeverEmptied | backend/api/routers/news.py:219-228 | Over every run, with failures anywhere, a stored feed is never replaced by an empty one |
| NewsRefresh.RunKeepsFresh | backend/api/routers/news.py:219-228 | The freshness marker never outlives the feed data when no task pauses more than 20700 seconds between its two writes |
| NewsRefresh.FreshImpliesData | backend/api/routers/news.py:22-29 | In such runs a live freshness marker always comes with live feed data |
| NewsRefresh.MarkerBackedExactly | backend/api/routers/news.py:219-228 | A marker just written is backed for its whole life if and only if the stored feed lives at least 900 seconds more |
| Freshness.CheckTriggersExactly | backend/api/routers/news.py:248-250 | A stale read counts as a trigger if and only if the worker has no refresh of its own running, also after one has ended |
| Freshness.AcquireExactly | backend/api/routers/news.py:253-262 | A trigger starts a refresh and holds the lock for 120 seconds if and only if nobody holds it, and starts one without the lock when Redis errs |
| Freshness.ColdFetchStarts | backend/api/routers/news.py:322-330 | A request on a cold cache fetches for itself, at once and without the lock |
| Freshness.TaskMovesOn | backend/api/routers/news.py:219-243 | A task only moves on, by steps of its own, so it writes each key at most once |
| Freshness.KeysWrittenExactly | backend/api/routers/news.py:219-228 | The feed is written by a fetching task with a non-empty result, for 21600 seconds, and the marker by one that has written the feed, for 900; nothing else writes them |
| Freshness.FetchedIsStored | backend/api/routers/news.py:219-228 | Whatever others do in between, what a task fetched is stored and marked fresh, and both stay until somebody writes again |
| Freshness.ReleaseExactly | backend/api/routers/news.py:238-243 | The end of a task removes that task only; a background refresh takes the lock with it, any other task leaves it alone |
| Freshness.NoReleaseBetweenWrites | backend/api/routers/news.py:219-243 | No task ends between its two writes |
| Freshness.EveryTaskCanEnd | backend/api/routers/news.py:227-243 | A failed write changes neither key, and the task can still end |
| Freshness.StaleFeedIsRefreshed | backend/api/routers/news.py:219-262 | From the stale read to the end, whatever interleaves: with the lock free and a non-empty fetch, that is what is stored and marked fresh, the lock is gone, and the worker can trigger the next refresh |
| NewsRefresh.NewsCache.ReadFeed | backend/api/routers/news.py:309-319 | A live cached feed is served up to the limit, a negative one counting from the end, and nothing changes |
| NewsRefresh.NewsCache.RefreshIfStale | backend/api/routers/news.py:312-318 | A refresh is triggered if and only if the marker is gone when it is asked for |
| NewsRefresh.NewsCache.TriggerCheck | backend/api/routers/news.py:248-250 | A worker whose own refresh is running triggers nothing |
| NewsRefresh.NewsCache.TriggerAcquire | backend/api/routers/news.py:253-262 | The conditional set of the lock decides whether a task starts |
| NewsRefresh.NewsCache.WriteFeed | backend/api/routers/news.py:219-225 | The first cache write; an empty feed writes nothing |
| NewsRefresh.NewsCache.WriteFresh | backend/api/routers/news.py:226 | The second cache write, of the marker |
| NewsRefresh.NewsCache.ReleaseLock | backend/api/routers/news.py:238-243 | Deletes the lock unconditionally and ends the task |
| Migrate.Database.Migrate | backend/api/migrate.py:39-112 | The runner, killed after any number of writing statements, is the run function |
| Migrate.RunCommitsPrefix | backend/api/migrate.py:78-107 | A run that dies anywhere has committed exactly a prefix of the pending files |
| Migrate.UninterruptedReachesTarget | backend/api/migrate.py:84-107 | Left alone, a run completes and the schema is what was applied plus everything pending, in order |
| Migrate.TracksExactly | backend/api/migrate.py:88-104 | Whether the tracks table exists after some files is up to the last one that creates or drops it |
| Migrate.RunKeepsTarget | backend/api/migrate.py:50-107 | A run that dies anywhere changes neither the schema finally reached nor the safety of the file order |
| Migrate.StampLosesV001 | backend/api/migrate.py:50-66 | A crash that leaves tracks behind before a pending V001 makes the next run stamp V001, which is then never applied |
| Migrate.UnsafeOrderSkipsV001 | backend/api/migrate.py:50-66 | In an unsafe order some crash, followed by a run that completes, ends with V001 recorded by the stamp and not applied, although one uninterrupted run applies it |
| Migrate.CrashesDoNotMatterExactly | backend/api/migrate.py:50-107 | Any number of dying runs and then a finished one gives the schema of one uninterrupted run, if and only if no state before a pending V001 has a tracks table |
| Migrate.EachVersionAppliedOnce | backend/api/migrate.py:78-104 | After any runs, even with repeated versions on disk, each version was applied at most once and the recorded set is what was there, what was applied, and the stamp |
| Migrate.CompletesExactlyWhenDistinct | backend/api/migrate.py:88-104 | The loop completes if and only if the pending versions are distinct |
| Tokens.TokenValidity | backend/api/core/auth.py:174-190 | After every run a token is accepted if and only if it has not expired, its user is active, and no password change of that user came since its login read the row |
| Tokens.InvalidatedForever | backend/api/routers/auth.py:283-298 | A password change kills the tokens of all earlier row reads, also those still to be issued, in every continuation |
| Tokens.ReactivationRevives | backend/api/core/auth.py:174-180 | A token rejected because its user is inactive is accepted again after reactivation until it expires |
| Tokens.UninterruptedRemovalKeepsAdmin | backend/api/routers/auth.py:326-343 | A deactivation whose lookup, count and update are adjacent leaves an active admin, however stale its caller's authorization |
| Tokens.CountRefusesExactly | backend/api/routers/auth.py:313-340 | Run at once, the admin count refuses exactly the repeated deactivation of an inactive admin by the only active one |
| Tokens.CarefulRunKeepsAdmin | backend/api/routers/auth.py:326-343 | With any number of admins and requests, an active admin remains over every run in which nothing takes one away between another request's checks and its commit and no update takes away the last one |
| Tokens.UpdateStripsExactly | backend/api/routers/auth.py:275-299 | An update leaves no active admin if and only if it demotes or deactivates the only one |
| Tokens.UpdateRemovesLastAdmin | backend/api/routers/auth.py:275-299 | A concrete run of two steps that ends so |
| Tokens.RaceExactly | backend/api/routers/auth.py:326-343 | Two active admins deactivate each other, their statements in any order and with any steps in between that leave the set of active admins alone: none is left if and only if each counts before the other commits |
| Tokens.RacingRemovalsLeaveNoAdmin | backend/api/routers/auth.py:326-343 | A concrete run from the empty table that ends without an active admin |
| Accounts.RowHistory | backend/api/routers/auth.py:275-299 | Over every run an account's password and role are the last ones an update set, its version counts the password changes, and without removals it is active as last set |
| Accounts.CreatedExactly | backend/api/routers/auth.py:127-142 | Accounts come from the first setup of an empty table, as an admin, and from creation under a free name, both active, at version 0 and with the given password |
| Accounts.LoginReadExactly | backend/api/routers/auth.py:64-95 | A login goes ahead if and only if its name belongs to an active account and the attempt is its password, and hands on that row's id and version |
| Accounts.LoginExactly | backend/api/routers/auth.py:64-85 | After any run it goes ahead if and only if the account is active and the attempt is the last password the steps set |
| Accounts.LoginWorks | backend/api/core/auth.py:80-190 | The token of a successful login is accepted if and only if no more than its lifetime passed since it was signed, the user is active, and no password change came since the row was read |
| Accounts.RequestMovesOn | backend/api/routers/auth.py:326-343 | A deactivation request only moves on, by its own statements, each of which takes effect at most once; its target never changes |
| Accounts.DeactivationsAreAuthorized | backend/api/routers/auth.py:313-343 | Whoever a removal deactivates was named in an earlier request of another active admin |
| Tokens.UserStore.constructor | backend/db/initdb/10_users_auth.sql:10-20 | Starts with no users |
| Tokens.UserStore.Setup | backend/api/routers/auth.py:127-142 | Creates the first admin if and only if there are no users |
| Tokens.InsertRefusedExactly | backend/api/routers/auth.py:218-233 | A name found free is refused by the insert, after whatever steps came in between, if and only if one of them took it; otherwise the insert creates its account |
| Tokens.UserStore.Insert | backend/api/routers/auth.py:225-235 | Creates an active user at password version 0 unless the unique index holds the name by then |
| Tokens.UserStore.ReadLogin | backend/api/routers/auth.py:64-85 | Tells wrong credentials, a disabled account and success apart, and hands on the version just read |
| Tokens.UserStore.IssueToken | backend/api/routers/auth.py:86-95 | The token carries the version read earlier and expires one lifetime from now |
| Tokens.UserStore.UpdateUser | backend/api/routers/auth.py:257-305 | Sets exactly the given columns, bumps the version with a new password, and reports a missing user before an empty request |
| Tokens.UserStore.LookUpTarget | backend/api/routers/auth.py:326-331 | Tells a missing target, an admin and another user apart, and decides the request's next stage |
| Tokens.UserStore.CountAdmins | backend/api/routers/auth.py:332-340 | Goes ahead if and only if more than one active admin is counted at that moment |
| Tokens.UserStore.CommitRemoval | backend/api/routers/auth.py:342-343 | Deactivates the target only |
| Tokens.UserStore.Authenticate | backend/api/core/auth.py:174-190 | Accepts exactly unexpired tokens of active users whose version matches |
| Passes.FirstMax | backend/api/routers/orbital.py:217-225 | The position of the first maximum elevation: nothing is higher, everything earlier is lower |
| Passes.FindPasses | backend/api/routers/orbital.py:197-279 | The loop with its mutable pass state returns the records of the runs |
| Passes.PassesCoverVisible | backend/api/routers/orbital.py:202-226 | The points of all passes, concatenated, are exactly the valid samples at or above the minimum elevation, in order |
| Passes.PointsExactly | backend/api/routers/orbital.py:202-226 | A sample is a point of some pass if and only if its step propagated and its elevation is at least the minimum |
| Passes.PassesAreMaximalRuns | backend/api/routers/orbital.py:202-279 | No valid sample is skipped inside a pass, and a valid sample below the minimum separates consecutive passes |
| Passes.PassEndsAreVisibleEnds | backend/api/routers/orbital.py:232-248 | Acquisition and loss are the earliest and latest times of the pass's points, with the azimuths at those points |
| Passes.TcaIsFirstMaximum | backend/api/routers/orbital.py:217-246 | The reported closest approach is the first point of maximum elevation and the reported maximum is its elevation |
| Passes.RunSpan | backend/api/routers/orbital.py:235-236 | A run spans as many steps as it has points less one if and only if no step inside it failed |
| Passes.DurationExactlyWhenNoGap | backend/api/routers/orbital.py:235-249 | The duration never exceeds LOS - AOS and equals it if and only if no step inside the pass failed to propagate |
| Patterns.CameoRoot | backend/api/services/escalation_detector.py:83-100 | A root, when there is one, is exactly two digits |
| Patterns.CameoRootExactly | backend/api/services/escalation_detector.py:83-100 | After blanks, the root is the first two digits of the leading run, a lone digit with a zero in front, and nothing without a digit |
| Patterns.MatchesLongestPrefix | backend/api/services/escalation_detector.py:158-166 | A prefix of the pattern is a subsequence of the roots if and only if it is no longer than what greedy matching found |
| Patterns.MatchesInOrder | backend/api/services/escalation_detector.py:158-166 | Matched positions strictly increase, and each holds its pattern element |
| Patterns.MatchPattern | backend/api/services/escalation_detector.py:145-172 | The loop returns the confidence and positions of greedy matching, or nothing below two elements or 0.66 |
| Patterns.ConfidenceExactly | backend/api/services/escalation_detector.py:168-172 | A pattern scores if and only if two elements and 66 hundredths of it match, and then the matched share |
| Patterns.DetectPattern | backend/api/services/escalation_detector.py:102-143 | Returns the best confidence over all patterns and, when positive, the events of a pattern that reaches it |
| Patterns.MatchSpellsPattern | backend/api/services/escalation_detector.py:126-141 | The reported events, in position order, spell a prefix of their pattern |
| Patterns.BestIsMaximum | backend/api/services/escalation_detector.py:134-143 | The result is the maximum confidence over the patterns |
| Patterns.BuiltInConfidences | backend/api/services/escalation_detector.py:38-44 | With the five built-in patterns the confidence is 0, 2/3 or 1 |
| Patterns.DetectedExactly | backend/api/services/escalation_detector.py:102-172 | With patterns of two or three elements: a full score exactly when the roots contain one of them in order, gaps allowed, and two thirds for the first two of three |
| Patterns.BuiltInExactly | backend/api/services/escalation_detector.py:38-44 | Which sequences those are for the built-in patterns |
| Patterns.OrderDoesNotMatter | backend/api/services/escalation_detector.py:120-124 | With distinct times the order of the input list is irrelevant |
| Patterns.SortKeepsSub | backend/api/services/escalation_detector.py:121-122 | Deleting events and sorting commute |
| Patterns.MoreEventsNeverLowerConfidence | backend/api/services/escalation_detector.py:102-172 | Inserting timed events anywhere into an all-timed list never lowers the confidence |
| Patterns.GrowthSafeExactly | backend/api/services/escalation_detector.py:120-143 | Growing a list never lowers its confidence, whatever the patterns, if and only if some event is untimed or the roots already stand in order of time |
| Patterns.GrowthSafeForPatterns | backend/api/services/escalation_detector.py:120-143 | For one list of patterns: if and only if the list is not sorted at all or sorting it does not raise its confidence |
| Patterns.UntimedEventCanLoseASequence | backend/api/services/escalation_detector.py:121-124 | A concrete input for the built-in patterns: one untimed event turns a full match into none |
| Risk.ComputeRiskScore | backend/api/services/escalation_detector.py:719-773 | The statement sequence computes the composed score |
| Risk.AdjustmentBounds | backend/api/services/escalation_detector.py:752-773 | Convergence, dampening, boost and cap keep at least nine tenths of a score in [0, 1], all of it when no space weather scores above 0.5, and never exceed one |
| Risk.ScoreIsMonotone | backend/api/services/escalation_detector.py:724-773 | The score never falls when any of the three base inputs rises |
| Risk.ScoreBounds | backend/api/services/escalation_detector.py:733-773 | The score lies in [0, 1], is at least 0.9 of the base, and at least the base when no space weather scores above 0.5 |
| Risk.ContextFillsAtMostAFifth | backend/api/services/escalation_detector.py:733-743 | Context evidence never lowers the base and closes at most a fifth of its gap to one |
| Risk.QuietScoreIsWeightedSum | backend/api/services/escalation_detector.py:720-731 | With no active anomaly the score is 0.4, 0.35 and 0.25 of the three inputs |
| Risk.ContextExactly | backend/api/services/escalation_detector.py:733-743 | Active evidence of mean score m fills 0.2 * m of the gap between base and one, up to one; without any the base stays |
| Risk.EvidenceExactly | backend/api/services/escalation_detector.py:730-741 | The evidence is the anomalies of the context with a positive score that are not space weather, each as often as it is there |
| Risk.ScoreExactly | backend/api/services/escalation_detector.py:720-773 | The score is the weighted base with its evidence, adjusted |
| Risk.AdjustedExactly | backend/api/services/escalation_detector.py:745-773 | With convergence applied, space weather above 0.5 takes a tenth off, an outage above 0.7 adds a tenth, and the result is capped at one |
| Risk.ConvergenceExactly | backend/api/services/escalation_detector.py:745-757 | There are at most three domains; convergence is one for up to one of them and the boost more for each beyond |
| Risk.DomainsExactly | backend/api/services/escalation_detector.py:65-78 | Which types of active anomaly make which domain count |
| Risk.NewDomainRaises | backend/api/services/escalation_detector.py:745-757 | A behavioral anomaly of a domain not active before, when one is, strictly raises every positive score below the cap |
| Risk.StormDampens | backend/api/services/escalation_detector.py:762-766 | With the orbital domain active anyway, a first storm multiplies a score below the cap by 0.9 |
| Risk.StrongerEvidenceRaises | backend/api/services/escalation_detector.py:733-773 | A stronger piece of active evidence never lowers the score, and an outage that crosses 0.7 for the first time raises it by a tenth or more, up to the cap |
| Risk.OutageInTwoDomains | backend/api/services/escalation_detector.py:719-773 | A worked example: an outage of 0.8 and a lost satellite signal of 0.6 turn a base of 0.5 into 0.7524 |
| Risk.ConvergenceSeesDomainsOnly | backend/api/services/escalation_detector.py:748-751 | A domain counts if and only if some active anomaly of either list belongs to it and it is not generic |
| Risk.ScoreIgnoresOrder | backend/api/services/escalation_detector.py:730-773 | Reordering either list of anomalies leaves the score unchanged |
| Replay.BucketWidth | backend/api/routers/tracks.py:392-402 | The width is between 30 seconds and 5 minutes, at most 240 whole buckets fit a window of up to twelve hours, and at most 2016 any window admissible by default |
| Replay.WidthGrowsExactly | backend/api/routers/tracks.py:392-402 | The width grows just above one, two, six and twelve hours and nowhere else |
| Replay.KeepCounts | backend/api/routers/tracks.py:433-450 | Each bucket keeps its sampled rows up to the cap, no fewer and no more |
| Replay.AnswerHoldsNewest | backend/api/routers/tracks.py:415-458 | Every returned row is the newest of its entity in its bucket, none appears twice, and rows run from newest to oldest |
| Replay.FinalSize | backend/api/routers/tracks.py:423-450 | At most cap times the number of buckets reach the final limit |
| Replay.CutLosesLittle | backend/api/routers/tracks.py:454-458 | The final limit cuts fewer rows than there are buckets, none newer than a row that stays, and none when the limit is a multiple of the number of buckets |
| Replay.RowsOfBucket | backend/api/routers/tracks.py:433-458 | How many rows of a bucket are returned: what the cap leaves of it, as far as the newer buckets leave room under the limit |
| Replay.BucketCoveredExactly | backend/api/routers/tracks.py:452-458 | A bucket is covered if and only if the rows kept of the newer buckets are fewer than the limit |
| Replay.MultipleCoversAll | backend/api/routers/tracks.py:452-458 | A limit that is a multiple of the number of buckets covers every bucket |
| Replay.DenseCoverage | backend/api/routers/tracks.py:442-458 | In a dense window the k-th newest bucket is covered if and only if k times the cap is below the limit |
| Replay.DenseAnswerIsFull | backend/api/routers/tracks.py:433-458 | A dense window fills its answer: exactly as many rows as the limit allows |
| Replay.NineBucketsFourLost | backend/api/routers/tracks.py:452-458 | Limit 10 over any nine dense buckets returns only the five newest buckets |
| Replay.EighteenRowsFourLost | backend/api/routers/tracks.py:452-458 | Eighteen concrete rows of which every answer with limit 10 covers exactly the five newest of nine buckets |
| Replay.QueryAnswers | backend/api/routers/tracks.py:414-459 | The specified query always has an answer, and a computed one is given |
| Replay.InWindowExactly | backend/api/routers/tracks.py:419 | The query sees each row whose time lies in the closed window, as often as it is there, and no other |
| Replay.AnswerStartsNewest | backend/api/routers/tracks.py:415-458 | Whatever is cut, the answer starts at the newest instant of the window, and it is empty only when the window is |
| Replay.AnswerShows | backend/api/routers/tracks.py:414-458 | Every returned row is a track row of the window and the newest of its entity in its bucket there, newest first |
| Replay.ReplayTracks | backend/api/routers/tracks.py:346-462 | Limits and windows outside the settings are refused; otherwise the result is a possible answer of the query, shows rows of the window only, starts at its newest instant, is empty only when the window is, and respects the limit |

## Left out

- Worker.RoundTripExactly: a TAK message counts as read when it starts with the TAK magic; the protobuf parse behind it is not modelled.
- LiveCache.PruneTimingUnobservable: says that sweeps show only through ties at the cap, as `LiveCache.SweepsNeedStaleness` says only through stale entities; on which of the remaining logs they do show is not characterised.
- LiveCache.NewestKeptExactly: takes the age limit, a setting, to be non-negative.
- Hub.BroadcastManager.Connect: does not model a socket registered twice; its only caller, `backend/api/routers/tracks.py:51`, registers each new socket once.
- Hub.RunKeepsInv: the entity a frame names is a given function of the frame; that every frame has the TAK prefix and names its own entity is what `backend/api/services/tak.py:133-142` ensures. Kafka records that fail to decode are skipped by the code and are no events here.
- The crash paths of the two consumer loops, `start`, `stop`, send timeouts and the transport itself: a send completes or its client leaves.
- RateLimit.RateLimiter.Check: a key is taken to be gone from its expiry instant on.
- Squelch.GateIsLastVerdict: levels and thresholds are the S-meter integers; the floating-point dBm values the code compares are not modelled.
- Squelch.Receiver.SetSquelch: the server-side squelch command is not sent; it runs as one step when its debounced task runs.
- Debounce.LastRequestCompletes: that the event loop starts, wakes and finishes a task is a premise, not a conclusion.
- Debounce.CommandTable.StartDisconnect: one disconnect at a time; a second one that overlaps it is a step without effect here, while in the code it walks the table too. The receive and keepalive tasks that a disconnect cancels first are not tasks of the table and are left out; an error raised inside a command counts as its completion.
- NewsRefresh.NewsCache.ReadFeed: the heartbeat key and read errors are left out.
- NewsRefresh.AtMostOneRefresh: speaks of background refreshes; requests on a cold cache fetch for themselves, without a lease, as in the code.
- Migrate.Database.Migrate: one runner at a time; reading files and taking the version from a file name are left out, and a migration is known by its version and its effect on `tracks`.
- Tokens.TokenValidity: signing, decoding and password hashing are left out; a token is its claims, a hash is the password it verifies, and versions do not overflow.
- Tokens.UserStore.UpdateUser: reads and writes the row at one instant; rows are never deleted, so an interleaving in between is covered.
- Tokens.RaceExactly: other requests may interleave as long as they leave the set of active admins alone; `Tokens.CarefulRunKeepsAdmin` covers the others in one direction.
- Passes.FindPasses: azimuth, elevation and range are given per step; rounding for display, time strings, the final sort and the result limit are left out.
- Patterns.CameoRoot: digits and blanks are the ASCII ones.
- Risk.ScoreBounds: exact reals stand for floating point; the convergence boost is any non-negative number, where `backend/api/services/risk_taxonomy.py:150` sets 0.20.
- Replay.ReplayTracks: times are parsed integers in microseconds, and buckets start at multiples of the width, whatever the database's origin.
- Orbit propagation, geodesy, clustering, trajectory models, scrapers, prompts, the user interface and endpoints that run one read query: foreign numerics, plumbing, or filters and clamps with easy claims.
