# RequestInspector Relay: a verified model

RequestInspector Relay records HTTP and UDP traffic, shows it live in a browser
and keeps it in RAM and in SQLite. This project models the parts of it that are
hard to get right by reading one function at a time, and proves what they
promise together. `dafny verify dfyconfig.toml` checks all of it.

Concurrent parts are step systems: one step is one mutex section, one
compare-and-swap or one channel operation, and the theorems hold for every
interleaving of the steps. Beside each step system stands the object that takes
those steps, with the source's fields and loops, whose methods are proved to
take exactly the step they stand for.

| part of the program | files |
|---|---|
| order of exchanges, records and their life cycle | `Ordering.dfy`, `Capture.dfy`, `Listing.dfy` |
| event bus and event stream | `EventBus.dfy`, `Bus.dfy`, `EventStream.dfy` |
| persistence reservations, single writer, drain and close | `Reservations.dfy`, `Repository.dfy` |
| SQLite tables | `Tables.dfy` |
| RAM history, one history page, walks over pages | `Store.dfy`, `History.dfy`, `Paging.dfy` |
| traffic pipeline and UDP intake, one exchange and all of them | `RunProtocol.dfy`, `Pipeline.dfy`, `Lifecycle.dfy` |
| pages and walks in the running system | `OpenPages.dfy`, `TraceWalks.dfy` |
| settings, configuration manager, hot reload, updates of several handlers | `Settings.dfy`, `ConfigManager.dfy`, `Reload.dfy`, `Handlers.dfy`, `Streams.dfy` |
| rate limiters | `ReplyLimiter.dfy`, `Authenticator.dfy` |
| the browser's live feed, and what it reads | `RealtimeFeed.dfy`, `LiveFeed.dfy` |

## How the parts hold together

`Intake.Pipeline.ServeHTTP` and `Intake.UdpIntake.Receive` keep to the protocol
of `RunProtocol`. `Lifecycle` runs any number of such exchanges together with
RAM's evictions and removals, the writer, its callback and deletions, and derives
what the other parts assume: `SnapshotCoversEvents` for the event stream,
`OpenPages.PageReadsInStepExactly` and `PersistingIsQuiet` for history pages,
`ReadingsUpgrade` for the live feed (`LiveFeed.FeedShowsOneMerge`). `Paging`
builds walks from pages, `TraceWalks` puts them into the running system, and
`EventStream` builds a browser's view from the bus.

An exchange's times are wall-clock times, and a datagram's carry a monotonic
reading besides, as Go's do: `time.Now()` keeps one (`internal/app/app.go:202`),
`.UTC()` strips it (`internal/capture/pipeline.go:394`, `model.go:197`), and no
row has one. The sorts compare two monotonic readings where both times have one,
and wall-clock times otherwise; cursors, queries and retention compare wall-clock
times. Keys (`Capture.KeyOf`) are by wall clock, which is the order the cursor and
SQLite stand for.

## What the code does not promise

These came out of the proofs. Each has a lemma with the exact condition, a
lemma with a concrete failing input, or both.

* `Reserve` adds two int64 values before comparing (`internal/sqlite/repository.go:284`),
  and a reservation size saturates at the largest int64
  (`internal/capture/pipeline.go:266-275`). A sum that wraps is negative and is
  admitted: `ReservationProtocol.BytesHoldExactly`, `ReserveKeepsBytes`,
  `SaturatedSizeIsAdmitted`. The count bound is not affected.
* `history.cleared` carries no revision (`internal/httpapi/exchanges.go:391`), a
  zero revision is left out of the JSON (`internal/events/bus.go:31`) and the
  browser drops events without one (`web/src/lib/api/contract.ts:24-28`), so no
  browser ever applies it: `EventStream.ClearedIsNeverApplied`. The page's own
  handling of that event (`web/src/lib/components/AppShell.svelte:128-137`) is
  never reached. The same holds for the events of refused UDP replies
  (`internal/app/udp.go:208-210`).
* Startup resolves `storage.sqlite_path` after applying the overrides, an update
  does not, so with a relative override the next change of any field puts the
  unresolved path back into force: `ConfigManager.StartsInSyncExactly`,
  `RelativePathOutOfSync`.
* The sorts compare datagrams by their monotonic readings, everything else is by
  wall clock. They agree on a listing, whatever order the map is visited in, exactly
  when no two datagrams in it are ordered differently by the two
  (`Listing.NewestFirstExactly`, with `Capture.SteadyWhateverIds`); the same
  condition decides whether eviction takes the oldest
  (`Store.EvictsOldestExactly`) and whether pages are right
  (`History.PagesRightExactly`). After a clock set back between two datagrams a
  walk can skip one of them (`Paging.ClockSetBackSkips`), and with an HTTP exchange
  timed between them the comparison is cyclic: listing and eviction depend on the
  order of the map (`Listing.ListingDependsOnOrder`,
  `Store.EvictionDependsOnOrder`). Counts, contents and has_more are right all the
  same (`Store.EvictionIsExact`, `History.AnswerSamples`).
* The update mutex belongs to one management handler
  (`internal/httpapi/handler.go:86`), and every management reload makes a new
  handler. An update compares the new settings with a configuration whose
  revision it throws away (`internal/httpapi/handler.go:331`). Planes follow the
  effective configuration throughout a run exactly when no successful commit
  changes a plane for which its handler saw no change:
  `Handlers.PlanesFollowExactly`. Commits on the revision that was read are such
  commits (`Handlers.FreshUpdatesFollow`); a request that waited in a handler while
  its successor was made and used can end with the traffic plane serving the wrong
  CORS flag: `Handlers.TwoHandlersMiss`.
* Foreign keys are a property of each SQLite connection. A delete on one that
  does not enforce them leaves datagrams behind: `Tables.DeleteLeavesNoOrphans`,
  `DatagramLeftBehind`.
* The UDP reply limits are per fixed window. Any sliding second stays within
  twice the limits, of replies and of bytes (`ReplyLimiter.AtMostTwiceTheLimit`),
  and can reach twice the limit of replies: `TwiceTheLimitIsReached`.
* Sessions and the five logins per minute are those of one authenticator
  (`internal/httpapi/auth.go:40-77`). A management reload builds a new handler with
  a new one (`internal/app/management.go:113-119`), so every session ends then and
  the count starts afresh; `Authenticator` is about one of them.
* Merging filtered stores is filtering the merged history only while no row is
  older than the RAM copy of its exchange: `History.FilterThenMerge`,
  `OpenPages.ClockSetBackRepeats`. The pipeline provides this unless the wall clock
  is set back between an exchange's start and its completion:
  `OpenPages.PageReadsInStepExactly`.
* The writer's callback reads RAM and saves back in two steps
  (`internal/app/app.go:114-125`). The save brings an exchange back exactly when
  fewer than capacity terminal exchanges are newer then
  (`Lifecycle.PutBackExactly`), so an eviction for capacity stands unless a resize
  or a removal makes room before that save, but a clear or an expiry in between is
  undone: `Lifecycle.ClearedComesBack`. The evictions this save causes, and those
  of a UDP save, are not announced.
* The exchange detail prints the zero completion time of an active exchange, since
  `omitempty` does not leave out a struct (`internal/capture/model.go:144`), and
  the live feed sorts by it (`web/src/lib/history.ts:25`). An active exchange thus
  ranks below every completed one, not on top as `docs/realtime-history.md` says:
  `LiveFeed.ActivePlaceExactly`.
* `docs/sqlite-history.md` says that clearing RAM never deletes rows; the handler
  clears both (`internal/httpapi/exchanges.go:379-393`). The code is followed.

## Model

| member | source | states |
|---|---|---|
| Ordering.SortedIsNewest | internal/sqlite/repository.go:514-552 | The order of the query, time and then id descending, is a strict total one: any two ways of listing the same keys by it agree |
| Capture.SteadyWhateverIds | internal/store/memory.go:117-126 | The comparison of two datagrams is their wall-clock order whatever their ids exactly when their monotonic readings are ordered as their wall-clock times |
| Capture.ChainsExactly | internal/capture/model.go:323-336 | The transitions that can follow one another are exactly those from receiving to any other state, from forwarding to completed, failed or cancelled, and both in turn |
| Ordering.NewestBelow | internal/httpapi/exchanges.go:110-122 | Starting again strictly below the n-th newest key continues with exactly the keys after it |
| Ordering.CutIgnoresOutranked | internal/sqlite/repository.go:514-552 | Leaving out entries that n kept ones outrank does not change the n newest |
| Listing.SortNewestFirst | internal/store/memory.go:117-126 | The insertion sort by that comparison, loop by loop, computes the sort the results below are about |
| Listing.ListingArranges | internal/store/memory.go:38-47 | Whatever the comparison does, the sort neither loses nor repeats an exchange |
| Listing.NewestFirstExactly | internal/store/memory.go:117-126 | For every order the map may be visited in the sort is newest first by wall clock and id, exactly when no two of the exchanges have monotonic readings ordered differently from their wall-clock times |
| Listing.ListingDependsOnOrder | internal/store/memory.go:117-126 | Two datagrams around a clock set back and an HTTP exchange between them sort before each other in a circle, and three map orders give three listings |
| Store.EvictionIsExact | internal/store/memory.go:98-115 | Whatever the clocks did, after an eviction RAM holds as many terminal exchanges as fit in capacity; those that leave are terminal, were there and are reported once; active ones stay |
| Store.EvictsOldestExactly | internal/store/memory.go:98-115 | At every capacity and map order every terminal exchange that stays is newer than every one that leaves, exactly when no two terminal datagrams are ordered differently by their two clocks |
| Store.EvictionDependsOnOrder | internal/store/memory.go:98-115 | Of two such datagrams and an HTTP exchange between them any can be the one evicted |
| Store.EvictedWhenOutranked | internal/store/memory.go:98-115 | While those clocks agree, an exchange is evicted exactly when it is terminal and ranks beyond capacity among the terminal ones |
| Store.KeptExactly | internal/store/memory.go:98-115 | While those clocks agree, a terminal exchange stays exactly when fewer than capacity terminal ones are newer |
| Store.RetainedIsRest | internal/store/memory.go:98-115 | What stays and what is reported as evicted partition what was there |
| Store.Memory.constructor | internal/store/memory.go:17-22 | A capacity below one counts as one; RAM starts empty |
| Store.Memory.Save | internal/store/memory.go:24-29 | Files the exchange under its id; what leaves is what a sort of the terminal ones, in some order of the map, has beyond capacity, in that order, and is the excess by rank while the clocks agree |
| Store.Memory.Resize | internal/store/memory.go:49-57 | The same eviction at the new capacity, which is at least one |
| Store.Memory.List | internal/store/memory.go:38-47 | Lists every exchange once, sorted from some order of the map; newest first, and the same for every order, while the clocks agree |
| Store.Memory.Clear | internal/store/memory.go:59-71 | Removes exactly the terminal exchanges and reports each once, newest first while the clocks agree; active ones remain |
| Store.Memory.Remove | internal/store/memory.go:73-82 | Removes one exchange exactly when it is present and terminal |
| Store.Memory.RemoveCompletedBefore | internal/store/memory.go:84-96 | Removes exactly the terminal exchanges completed before the cutoff by wall clock and reports each once, newest first while the clocks agree |
| BusProtocol.LongestFitIsLongest | internal/events/bus.go:177-182 | The kept suffix fits both replay limits and no longer suffix does |
| BusProtocol.FitStartGrows | internal/events/bus.go:87-98 | Publishing never brings an older event back into the replay log |
| BusProtocol.RoomInQueues | internal/events/bus.go:99-113 | An event that passes the subscriber's count and byte guard always finds room in its channel |
| BusProtocol.PublishOffersExactly | internal/events/bus.go:99-113 | A registered reader gets the event behind what it has queued exactly when its size and the raised counters are within the three limits, and is cut off with its queue as it was otherwise; no other reader is touched |
| BusProtocol.NextKeepsInv | internal/events/bus.go:87-175 | Every step of every publisher, subscriber and forwarder keeps the counters exact and each subscriber's events contiguous |
| BusProtocol.NoEventLostOrDoubled | internal/events/bus.go:87-175 | In every reachable state a registered subscriber has received, holds or has queued exactly what was published since it subscribed, in order; one that was cut off got a prefix; pending counts are the queue plus at most one unaccounted event |
| BusProtocol.ReplayIsExact | internal/events/bus.go:184-194 | Resuming after an id asks for a reset exactly when the id is not in the longest suffix that fits, and otherwise yields exactly the later events |
| Events.Bus.constructor | internal/events/bus.go:79-85 | Limits below one count as one; nothing is published yet |
| Events.Bus.TrimReplay | internal/events/bus.go:177-182 | The trim loop leaves the longest suffix of all published events that fits, with its exact byte count |
| Events.Bus.Publish | internal/events/bus.go:87-113 | Gives the event the next id, trims the log, and offers it to every subscriber, each judged by its own counters |
| Events.Bus.ReplayAfter | internal/events/bus.go:184-194 | The scan of the kept log answers what the whole publishing history says it must |
| Events.Bus.Subscribe | internal/events/bus.go:115-143 | Replay and registration happen at one position of the history |
| Events.Bus.SubscribeWithSnapshot | internal/events/bus.go:122-131 | The cursor names the last event published, and there is nothing to replay after it |
| Events.Bus.Close | internal/events/bus.go:145-147 | Unregisters the subscriber and touches nothing else |
| Events.Bus.TakeQueued | internal/events/bus.go:149-155 | The forwarder takes the oldest queued event and holds it |
| Events.Bus.HandOver | internal/events/bus.go:156-159 | The held event is sent, and is not yet accounted for |
| Events.Bus.Account | internal/events/bus.go:160-163 | The counters drop by exactly the event that was sent |
| EventStream.UniqueKeepsFirst | web/src/lib/api/events.ts:38-47 | Of a list with repeated ids every id stays, with its first summary, in the order of first occurrence |
| EventStream.UniqueNewest | web/src/lib/api/events.ts:38-47 | The loop over the set of seen ids computes that list, which every snapshot and resync starts from |
| EventStream.ReducesExactly | web/src/lib/api/events.ts:24-36 | A new event becomes cursor and latest; an evicted or deleted one takes exactly the items with its id out and leaves the others in order, a clear empties the list, a configuration change asks for nothing and every other kind for a refresh; one at or below the cursor changes nothing |
| EventStream.GoesExactly | internal/httpapi/sse.go:27-95 | A new connection starts with a snapshot at the end of the log, a resumed one with exactly the events after the one named, or is refused when the log no longer has it; the handler writes one event at a time, and reading a frame changes exactly the cursor, list and flags it should |
| EventStream.MoveKeepsInv | internal/httpapi/sse.go:27-95 | Every publish, cut-off, reconnect, write and read keeps the browser's state the fold of the events since its latest snapshot |
| EventStream.ExactlyOnce | internal/httpapi/sse.go:69-95 | Over any run with cut-offs, dropped connections and resumptions, the events the browser applied since its latest snapshot or resync are exactly the visible ones published since that position, in order and each once |
| EventStream.ShowsWhatIsLeft | web/src/lib/api/events.ts:24-47 | Over any run the browser holds the exchanges of its latest snapshot, each id once with its first summary and in order, but for those that an event with a revision has evicted or deleted since, or none after a clear with a revision; cursor, latest event and refresh flag follow from the same events |
| EventStream.NothingInFlightMeansCaughtUp | internal/httpapi/sse.go:27-67 | With nothing queued, held or on the wire a live browser is at the end of the publishing history |
| EventStream.RedeliveryIsHarmless | web/src/lib/api/events.ts:24-36 | Delivering again any run of events at or below the cursor leaves the state unchanged |
| EventStream.ClearedIsNeverApplied | internal/httpapi/exchanges.go:391 | The clear event, as the server publishes it, never changes a browser's state |
| ReservationProtocol.NextKeepsInv | internal/sqlite/repository.go:278-355 | Every step keeps the count, the ownership of queued and batched items, the commit order and the drain conditions |
| ReservationProtocol.HandlesExactly | internal/sqlite/repository.go:278-323 | A reservation is admitted exactly by the four tests, with the wrapping sum, and then commits what it was given behind everything queued or is released |
| ReservationProtocol.CommitFindsRoom | internal/sqlite/repository.go:292-304 | A commit always finds room in the write channel |
| ReservationProtocol.Accounting | internal/sqlite/repository.go:278-416 | In every reachable state the count is the number of unreleased reservations and within the queue's capacity, each reservation is resolved at most once, the queue-full error never happens, and committed items are written, batched or queued in commit order |
| ReservationProtocol.CommittedAsCalled | internal/sqlite/repository.go:292-304 | Over any run every reservation is resolved by one call at most, and what has been committed is, in order and each once, the id and exchange the resolving commit calls were given |
| ReservationProtocol.ZeroStays | internal/sqlite/repository.go:656-663 | Once intake is refused and the count is zero it stays zero, until maintenance ends or for good when closing |
| ReservationProtocol.DrainedBeforeStop | internal/sqlite/repository.go:865-881 | When the writer is told to stop, and when the database closes, every exchange a caller committed has gone through a batch, exactly once, in commit order and as the caller passed it; the count is zero and intake refused |
| ReservationProtocol.ReserveKeepsBytes | internal/sqlite/repository.go:278-290 | The byte bound survives a Reserve exactly when it is refused for another reason or its sum stays within int64 |
| ReservationProtocol.BytesHoldExactly | internal/sqlite/repository.go:278-323 | Over a whole run the byte counter is the sum over unreleased reservations and within capacity throughout exactly when every admitted sum stays within int64 |
| ReservationProtocol.BytesAccounting | internal/sqlite/repository.go:278-323 | With sizes that leave the capacity free below the int64 maximum, the byte counter is the sum over unreleased reservations, stays within capacity, and no release reaches a clamp |
| ReservationProtocol.SaturatedSizeIsAdmitted | internal/sqlite/repository.go:284 | A saturated size after any other reservation is admitted, and the total is then beyond capacity |
| Persistence.Repository.Reserve | internal/sqlite/repository.go:278-290 | Takes the reserve step and hands out a reservation exactly when the four admission tests pass |
| Persistence.Repository.Commit | internal/sqlite/repository.go:292-304 | The first resolver puts exactly the reservation and the exchange it was given behind what is queued, and into the history of commits; a later one changes nothing; the default branch of the send is never taken |
| Persistence.Repository.Cancel | internal/sqlite/repository.go:306-310 | Releases the reservation unless it was resolved before |
| Persistence.Repository.Release | internal/sqlite/repository.go:312-323 | Takes one reservation off both counters, clamped at zero |
| Persistence.Repository.CollectBatch | internal/sqlite/repository.go:340-355 | A batch is a non-empty front of the queue, in order and at most the batch size, whenever it is cut short |
| Persistence.Repository.ReleaseBatch | internal/sqlite/repository.go:410-415 | Every reservation of the batch is released once, and no other, whether the transaction succeeded or not |
| Persistence.Repository.BeginMaintenance | internal/sqlite/repository.go:750-759 | Only one maintenance runs at a time |
| Persistence.Repository.EndMaintenance | internal/sqlite/repository.go:761-766 | Intake is open to reservations again |
| Persistence.Repository.SeesZero | internal/sqlite/repository.go:768-784 | The wait loop leaves exactly when no reservation is outstanding |
| Persistence.Repository.RefuseIntake | internal/sqlite/repository.go:865-868 | From the first section of Close on nothing is admitted |
| Tables.TablesRefineStored | internal/sqlite/repository.go:357-409 | Batched transactions, failed ones and deletes have the effect of upserting and deleting one exchange at a time |
| Tables.ReadsReturnLastPersisted | internal/sqlite/repository.go:473-512 | After any operations a body query returns exactly the bytes last persisted for the id, a datagram row exists exactly for a UDP exchange with a datagram, and metadata comes back without payloads under the same ordering key |
| Tables.ReadsReturnLastWritten | internal/sqlite/repository.go:473-571 | Read off the operations: an id is found exactly when the last batch or delete that touched it wrote it, and then state, revision, times and every payload are those of the last entry that batch had for it |
| Tables.DeleteLeavesNoOrphans | internal/sqlite/repository.go:790-829 | A delete leaves no orphan datagram exactly when the connection cascades or no deleted id has one |
| Tables.DatagramLeftBehind | internal/sqlite/repository.go:790-829 | One stored datagram deleted without enforcement leaves its payload and no exchange |
| Tables.CascadingDatabaseHasNoOrphans | internal/sqlite/repository.go:258-261 | Where foreign keys are enforced there is never a datagram without its exchange |
| Tables.Database.WriteBatch | internal/sqlite/repository.go:357-409 | The transaction applies the whole batch, or nothing when any statement or the commit fails |
| History.WindowSuffices | internal/httpapi/exchanges.go:91-99 | RAM and the limit rows more than RAM holds have the same newest limit keys as RAM and all rows, and give the same has_more |
| History.FilterThenMerge | internal/httpapi/exchanges.go:91-99 | Filtering both stores and merging equals filtering the merged history exactly when no row under the cursor has a RAM copy that is not under it |
| History.OlderThan | internal/httpapi/exchanges.go:110-122 | Keeps exactly the exchanges strictly below the cursor, in order |
| History.MergeExchanges | internal/httpapi/exchanges.go:136-156 | The merge is a sort of the union by id, RAM copy preferred; the newest-first listing of it while the clocks agree |
| History.ListRows | internal/sqlite/repository.go:514-552 | The query returns the n newest rows under the boundary and says whether there are more |
| History.CursorFound | internal/httpapi/exchanges.go:158-165 | A cursor is found exactly when an exchange has its time and id |
| History.Locate | internal/sqlite/repository.go:564-571 | A cursor is accepted exactly when RAM or SQLite still holds its exchange at that place |
| History.Exchanges | internal/httpapi/exchanges.go:54-108 | The handler refuses bad limits and lost cursors. Otherwise it answers what its sort, its filter and its window make of RAM in some map order: as many exchanges under the cursor as fit, and the newest of them while the clocks agree |
| History.AnswerSamples | internal/httpapi/exchanges.go:100-108 | Whatever the clocks did, a page has as many exchanges of the id-deduplicated union below the cursor as fit, each once, has_more is exact and next_cursor names the last one |
| History.PagesRightExactly | internal/httpapi/exchanges.go:91-108 | With SQLite enabled every page under a cursor, at every limit and map order, is the newest exchanges below it, exactly when no two datagrams that RAM holds below it are ordered differently by their two clocks |
| Paging.PageAdvances | internal/httpapi/exchanges.go:100-107 | While the clocks agree, the handler's page is the front of what remains, and next_cursor stands for exactly the rest |
| Paging.QuietKeepsRemaining | internal/store/memory.go:98-115 | Newer traffic, saves that leave an exchange in its place, eviction of stored exchanges and persistence of recorded ones leave what a client has still to see unchanged, and its cursor accepted |
| Paging.QuietRunKeepsRemaining | internal/store/memory.go:98-115 | The same for any run of such changes between two requests |
| Paging.WalkPartitions | internal/httpapi/exchanges.go:54-108 | At any point of a walk the pages so far and what remains make up the history, in order, and every page but the last is full |
| Paging.CompleteWalk | internal/httpapi/exchanges.go:54-108 | A walk whose requests meet unchanged remaining history, with clocks that agree, ends, and lists every exchange of the union once, strictly newest first |
| Paging.QuietWalkListsAll | internal/httpapi/exchanges.go:54-108 | Following next_cursor with any run of such changes between requests, each meeting datagrams on which the two clocks agree: no request is refused, every exchange the walk began with is listed once, strictly newest first, and the end comes within one request per limit exchanges |
| Paging.ClockSetBackSkips | internal/httpapi/exchanges.go:110-122 | Two stored datagrams around a clock set back: pages of one show the later, then nothing, and never the earlier |
| RunProtocol.OneTerminalTransition | internal/capture/model.go:190-208 | Whatever a run does, its record turns terminal at most once, and exactly once when it ends terminal |
| RunProtocol.PublishedRevisionsIncrease | internal/capture/pipeline.go:115-250 | A run publishes strictly increasing revisions |
| RunProtocol.SavedFirst | internal/capture/pipeline.go:431-454 | Whatever is published or committed is the record saved last before it, and what is committed is terminal |
| RunProtocol.CommittedOnce | internal/capture/pipeline.go:127-147 | A reservation is committed exactly once when its exchange was recorded, and never when it was given up |
| Intake.ReservationIsCappedSum | internal/capture/pipeline.go:252-275 | The reserved size is the sum of the positive limits, capped at the largest int64 |
| Intake.ModestExactly | internal/capture/pipeline.go:252-275 | A request leaves the writer's byte capacity free below the int64 maximum exactly when its limits add up to no more |
| Intake.EndingsExactly | internal/capture/pipeline.go:114-250 | A request completes exactly when it was handed on, answered and delivered, is cancelled when the mode failed by cancellation, and fails otherwise; each of the six answers has its exact case |
| Intake.Pipeline.Admit | internal/capture/pipeline.go:346-358 | Admission counts the request in exactly when fewer than the limit are running, and counts a refusal otherwise |
| Intake.Pipeline.ReservationSize | internal/capture/pipeline.go:252-264 | The sum of the positive request limits, and in proxy mode of the response limits, capped at the largest int64 |
| Intake.Pipeline.Start | internal/capture/pipeline.go:388-422 | The first record has revision one and no body, and is saved before it is announced |
| Intake.Pipeline.Fail | internal/capture/pipeline.go:431-442 | The failure transition is never refused; the failed record keeps its body and is saved before it is announced |
| Intake.Pipeline.Process | internal/capture/pipeline.go:148-249 | Every path from the first record ends in one terminal record with the state its cause calls for, the request body that was read, the response that was captured, made up for a proxy error or absent, and the revision its path counts; every record saved on the way carries the body |
| Intake.Pipeline.Persist | internal/capture/pipeline.go:137-147 | The terminal record is saved as queued and committed as it stands; a refused commit is recorded |
| Intake.Pipeline.ServeHTTP | internal/capture/pipeline.go:115-250 | Every request gives its admission slot back, resolves its reservation, and leaves either no record or one terminal record with the state, body, response and revision its input calls for; that record is what is committed, and start, reading, upstream response and failure are what is announced |
| Intake.UdpIntake.Receive | internal/app/app.go:188-259 | A datagram becomes one terminal record at revision one with its payload, saved and committed before it is announced; oversized and refused ones are discarded |
| Lifecycle.NextKeepsInv | internal/capture/pipeline.go:115-250 | Every step of every run, the writer, its callback, evictions, removals, and deletions found in RAM or in SQLite keeps RAM, rows, pending items and announced revisions those of the records saved last |
| Lifecycle.StepsExactly | internal/app/app.go:112-133 | What every step makes of RAM, rows, queue and announcements: a save files one record, what leaves RAM is exactly what was evicted, terminal, expired or removed and may be announced at the revision it had, the writer and its callback work on the oldest item |
| Lifecycle.SnapshotCoversEvents | internal/httpapi/sse.go:88-95 | Whenever RAM is read, it shows each exchange it still holds at least at the revision of every event published about it |
| Lifecycle.DetailCoversEvent | web/src/lib/components/AppShell.svelte:159-163 | A detail read after an event, from RAM or SQLite, is at least at the event's revision, so the browser's guard against older details never applies |
| Lifecycle.CopiesShareKeys | internal/store/memory.go:128-134 | The RAM copy and the row of one exchange are at the same place in the order and at the same revision |
| Lifecycle.RecordsOnlyUpgrade | internal/capture/model.go:190-208 | Over any stretch of any run a record only moves to later revisions, one revision is one record but for its status, and a terminal record is the last |
| Lifecycle.ReadingsUpgrade | internal/httpapi/exchanges.go:324-332 | Whatever RAM or SQLite shows of an exchange later is an upgrade of what either showed before |
| OpenPages.PageReadsInStepExactly | internal/httpapi/exchanges.go:64-97 | RAM read first and SQLite read later are in step exactly when no exchange that RAM showed active has a row that completed before it started |
| OpenPages.PersistingIsQuiet | internal/app/app.go:114-125 | The status save of a terminal record, the writer's store, the callback's save and the eviction of a stored exchange disturb no open page |
| Lifecycle.PutBackExactly | internal/app/app.go:114-125 | While the clocks of the terminal exchanges agree, what the callback read is in RAM after its save exactly when fewer than capacity terminal exchanges are newer, whatever removed it in between |
| Lifecycle.ClearedComesBack | internal/app/app.go:114-125 | A run in which a cleared datagram is back in RAM although nothing saved it since |
| OpenPages.ClockSetBackRepeats | internal/httpapi/exchanges.go:64-97 | A run in which a page reads RAM while a request is active and SQLite after it completed before its start: the request is on both sides of the cursor |
| TraceWalks.StepIsUnmoved | internal/store/memory.go:24-115 | A save in place or above the boundary, a loss of stored or newer exchanges, the writer's store and whatever else is calm moves nothing at or below the boundary, and takes no row from there |
| TraceWalks.MetShowsPlaces | internal/httpapi/exchanges.go:64-97 | RAM read at one moment and rows at a later one, with calm steps between, show below the boundary exactly what both showed together at the first moment |
| TraceWalks.TraceWalkListsAll | internal/httpapi/exchanges.go:54-108 | In any run of the system, with each page's RAM listing, cursor lookup and row query at three moments and only calm steps on the way, a walk is never refused, lists every exchange its first request met once, strictly newest first, and ends within one request per limit exchanges |
| Settings.OrderDoesNotMatter | internal/config/config.go:439-523 | Success and result of applying overrides are the same for every order of the override map |
| Settings.AppliesExactly | internal/config/config.go:439-523 | Overrides apply exactly when each names a known field and decodes; then each decides its own field, a null leaves it, and every other field is as below |
| Settings.ApplyOverrides | internal/config/config.go:439-523 | The loop over the map computes the configuration with every override in force, or fails exactly when one is unknown or does not decode |
| ConfigManager.OneCommitPerRevision | internal/config/manager.go:176-190 | Of all updates prepared at one revision at most one is ever committed |
| ConfigManager.PreparesExactly | internal/config/manager.go:139-170 | An update is prepared exactly when its revision is current, its fields are known and its values parse; a removed override is gone unless the request sets it, the others stay, and the result is valid |
| ConfigManager.DropsExactly | internal/config/manager.go:192-241 | An override is dropped exactly when the revision is current, it exists, the rest gives a valid configuration and the file is written; every other override stays, in memory and in the file |
| ConfigManager.PreparedExactly | internal/config/manager.go:139-170 | Over any run exactly the updates that a request prepared on the state it met can be committed |
| ConfigManager.BootsExactly | internal/config/manager.go:56-90 | A start puts the stored overrides over the base, resolves the path after them, and keeps the resolved base as the lower configuration where there are overrides |
| ConfigManager.EffectiveMatchesOverrides | internal/config/manager.go:139-241 | After any run the effective configuration is valid, the revision is one more than the successful changes, and it equals the lower configuration under the overrides exactly when it started so or anything was committed |
| ConfigManager.StartsInSyncExactly | internal/config/config.go:144-149 | A started manager equals its lower configuration under the overrides exactly when no override sets the database path or resolving leaves that path alone |
| ConfigManager.RelativePathOutOfSync | internal/config/config.go:538-551 | A relative path override is resolved at startup and unresolved by the next change of another field |
| ConfigManager.RestartKeepsConfiguration | internal/config/manager.go:56-90 | Restarting from the stored overrides after any run gives back the configuration that was in force |
| ConfigManager.Manager.Edit | internal/config/manager.go:145-161 | Removals come first, then new values; unknown fields and malformed values are refused, and no other override is touched |
| ConfigManager.Manager.Prepare | internal/config/manager.go:139-170 | Answers a stale revision, a bad request, overrides that do not apply or validate, or the prepared update, each exactly when it should; nothing changes |
| ConfigManager.Manager.Persist | internal/config/manager.go:243-286 | The file is replaced as a whole or left alone, and never without a path |
| ConfigManager.Manager.Commit | internal/config/manager.go:176-190 | A stale update or a failed write changes nothing; otherwise configuration, overrides, file and revision move together |
| ConfigManager.Manager.Remove | internal/config/manager.go:192-204 | Removes exactly that override when it exists, the rest is valid and the file can be written; names the refusal otherwise and changes nothing |
| ConfigManager.Manager.RemoveAuthentication | internal/config/manager.go:206-224 | Username and password go together, if either is overridden |
| Reload.PlanesFollowConfiguration | internal/httpapi/handler.go:330-411 | Over any run of updates, failed and successful, every plane serves with the effective configuration, field by field |
| Reload.UpdatesExactly | internal/httpapi/handler.go:330-411 | An update applies exactly when it can be prepared on the current revision, its planes can be and the file can be written; then overrides, configuration, revision and planes change together, otherwise nothing does |
| Reload.ChangedFields | internal/httpapi/handler.go:413-419 | The management, traffic or UDP plane counts as changed exactly when the two configurations disagree about one of its own fields, UDP also when only one has it turned on |
| Reload.ServesExactly | internal/app/management.go:113-119 | The planes follow a configuration exactly when address, username, password, session TTL, CORS flag and every UDP setting they serve with are its values, field by field |
| Reload.GrantsExactly | internal/httpapi/handler.go:338-380 | A changed plane can be prepared exactly when it is open and what its fields newly need from outside is granted: a free address, a UDP upstream that resolves |
| Reload.ManagementPlane.Prepare | internal/app/management.go:80-107 | Holds the transition lock and one new socket exactly when it succeeds with a new address; releases both when it fails |
| Reload.ManagementPlan.Activate | internal/app/management.go:113-155 | Switches address, listener and login settings, drains the old listener and frees the lock, once |
| Reload.ManagementPlan.Abort | internal/app/management.go:157-166 | Closes the candidate socket and frees the lock, unless the plan was completed |
| Reload.TrafficPlane.Prepare | internal/app/traffic.go:59-85 | As for the management plane |
| Reload.TrafficPlan.Activate | internal/app/traffic.go:91-121 | The CORS flag changes at once, the address only with a new listener; the lock is freed once |
| Reload.TrafficPlan.Abort | internal/app/traffic.go:123-132 | Closes the candidate socket and frees the lock, unless the plan was completed |
| Reload.UdpPlane.Prepare | internal/app/udp.go:63-102 | Binds exactly when the plane is to be enabled at an address it does not listen on, after the upstream resolves |
| Reload.UdpPlane.Close | internal/app/udp.go:174-193 | Closes the listener and refuses later reloads |
| Reload.UdpPlan.Activate | internal/app/udp.go:108-139 | Keeps, replaces or drops the listener as the settings ask, closing a listener that is no longer used; sessions follow the listener and the mode |
| Reload.UdpPlan.Abort | internal/app/udp.go:141-150 | Closes the candidate socket and frees the lock, unless the plan was completed |
| Reload.Handler.Prepare | internal/httpapi/handler.go:338-380 | All three planes are prepared exactly when each that changes can be; what is open besides the listeners belongs to a plan |
| Reload.Handler.Activate | internal/httpapi/handler.go:399-410 | Activating every plan leaves the listeners as the only open sockets and no lock held |
| Reload.Handler.AbortAll | internal/httpapi/handler.go:345-380 | The deferred aborts close every candidate socket and free every lock |
| Reload.Handler.ApplyConfigurationUpdate | internal/httpapi/handler.go:330-411 | All or nothing: it applies exactly when the update is valid, every touched plane can prepare and the file can be written, and then every plane serves with each field of the new configuration; a failure leaves configuration, planes and open sockets as they were; no lock stays held |
| Handlers.StepFollowsExactly | internal/httpapi/handler.go:330-411 | After any step of any handler's update planes that followed the configuration still do, or are about to be switched by the holder of their lock, exactly unless the step commits a change to a plane its handler saw no change for |
| Handlers.ChangedExactly | internal/httpapi/handler.go:413-419 | What a handler compares: a plane is touched exactly when the configurations disagree about one of its own fields |
| Handlers.StepsExactly | internal/httpapi/handler.go:330-411 | A handler asks the three planes in order and only where it sees a change, commits on the revision it prepared for, switches UDP, traffic and management in that order, management with the login settings in force then, and gives its locks back when it stops |
| Handlers.PlanesFollowExactly | internal/httpapi/handler.go:330-411 | Over any interleaving of the updates of any number of handlers, after every prefix every plane serves with the effective configuration or is about to, exactly when every successful commit misses no plane it changes |
| Handlers.FreshUpdatesFollow | internal/httpapi/handler.go:330-411 | In particular, when each commits on the revision its comparison was read at, every plane serves with the effective configuration whenever no activation is under way |
| Handlers.CommitFollowsExactly | internal/httpapi/handler.go:381-385 | A commit leaves every plane right exactly when the handler holds a plan for every plane its commit changes |
| Handlers.TwoHandlersMiss | internal/httpapi/handler.go:86 | From one handler: its management update makes a second handler, and a request it got before goes past both revision tests and the transition locks after the second turned CORS on; CORS is off in the end and the traffic plane serves with it on |
| Streams.NextKeepsInv | internal/app/management.go:80-212 | Every critical section keeps the closed flag truthful and each channel closed at most once |
| Streams.ClosedAtMostOnce | internal/app/management.go:113-212 | Over any interleaving of reloads, CloseStreams and Shutdown every channel is closed at most once, and outside an activation only the current one can be open |
| Streams.ShutdownIsFinal | internal/app/management.go:192-212 | After Shutdown every channel ever made is closed exactly once and no reload can be prepared |
| Streams.ManagementStreams.Prepare | internal/app/management.go:80-107 | Plans exactly when the plane is open and the address binds |
| Streams.ManagementStreams.Abort | internal/app/management.go:157-166 | Frees the lock and leaves the channels alone |
| Streams.ManagementStreams.Swap | internal/app/management.go:113-143 | A new open channel becomes current, remembering whether the old one still has to be closed |
| Streams.ManagementStreams.CloseLast | internal/app/management.go:151-154 | Closes the replaced channel unless it was closed before the swap |
| Streams.ManagementStreams.CloseStreams | internal/app/management.go:181-190 | Closes the current channel if it is open |
| Streams.ManagementStreams.Shutdown | internal/app/management.go:192-199 | Closes the plane, and the current channel if it is open |
| ReplyLimiter.AtMostTwiceTheLimit | internal/app/udp_sessions.go:134-150 | Any one-second stretch of any run lets through at most twice the reply and byte limits, and one window never exceeds the limits |
| ReplyLimiter.RefusedExactly | internal/app/udp_sessions.go:134-150 | In any run a reply is let through exactly when what was accepted since its window began leaves room for it and its bytes |
| ReplyLimiter.FittingArrivals | internal/app/udp_sessions.go:111-132 | Oversized replies never reach the limiter, whatever arrives before and after them |
| ReplyLimiter.TwiceTheLimitIsReached | internal/app/udp_sessions.go:134-150 | For every limit of replies a run reaches twice that many within one second |
| ReplyLimiter.UdpSession.AllowReply | internal/app/udp_sessions.go:134-150 | Judges and charges the reply as the fixed-window limiter defines |
| ReplyLimiter.UdpSession.Handle | internal/app/udp_sessions.go:111-132 | A reply is delivered exactly when it fits a datagram and the limits; every other one is counted as dropped |
| ReplyLimiter.UdpSession.Receive | internal/app/udp_sessions.go:111-132 | Over a whole receive loop the delivered replies are what a run of the limiter accepts, and delivered and dropped add up to what arrived |
| ReplyLimiter.UdpSession.Close | internal/app/udp_sessions.go:168-177 | The connection is closed by the first call only |
| Authenticator.AtMostFivePerMinute | internal/httpapi/auth.go:40-77 | No minute of any run holds more than five checked logins from one address, and both tables stay within their caps |
| Authenticator.RateLimitedExactly | internal/httpapi/auth.go:40-62 | Unless the table is full of other addresses, a login is refused for its rate exactly when the minute before it already holds five checked ones |
| Authenticator.AdmittedExactly | internal/httpapi/auth.go:79-95 | A cookie is admitted exactly when it was issued less than one TTL ago and not logged out since, however often expired sessions were swept |
| Authenticator.SessionsNeedCredentials | internal/httpapi/auth.go:63-76 | Every session that is not logged out goes back to a checked login whose username and password both equalled the configured ones, at the time it counts from |
| Authenticator.LoginAnswersExactly | internal/httpapi/auth.go:40-77 | Over any run every answer to a login: limited exactly by the table or the checked logins of its minute; otherwise invalid exactly when username or password differs from the configured one, full exactly when both are right and no session expires, issued exactly when both are right, there is room and a token |
| Authenticator.SessionsAfterLogin | internal/httpapi/auth.go:63-76 | A login adds its own session, valid for the TTL, and takes none away that has not expired; without the right credentials it takes none away at all |
| Authenticator.KeepRecent | internal/httpapi/auth.go:107-117 | Filtering in place keeps exactly the attempts less than a minute old, in order |
| Authenticator.Append | internal/httpapi/auth.go:62 | Appending extends the log in place or in a copy |
| Authenticator.Gate.PruneAttempts | internal/httpapi/auth.go:127-136 | Every address keeps exactly its recent attempts, and addresses without any are forgotten |
| Authenticator.Gate.RemoveExpired | internal/httpapi/auth.go:119-125 | Exactly the expired sessions are removed |
| Authenticator.Gate.CountAttempt | internal/httpapi/auth.go:47-62 | A login counts as an attempt exactly when its credentials will be compared |
| Authenticator.Gate.OpenSession | internal/httpapi/auth.go:63-76 | A session is issued exactly when username and password equal the configured ones, there is room in the table and a token; expired sessions make room |
| Authenticator.Gate.TryLogin | internal/httpapi/auth.go:40-77 | Answers as the limits and the two credentials call for and takes the login step, despite filtering and appending in shared backing arrays |
| Authenticator.Gate.Check | internal/httpapi/auth.go:79-95 | Takes the check step, and drops a session it refuses |
| Authenticator.Gate.Logout | internal/httpapi/auth.go:97-105 | Takes the logout step |
| RealtimeFeed.CutThenMerge | web/src/lib/realtime-feed.ts:52-60 | Cutting the feed to fifty before the next list is merged loses nothing that should be shown |
| RealtimeFeed.FoldIsOneMerge | web/src/lib/realtime-feed.ts:52-60 | Merging list by list and cutting each time shows what one merge of everything cut to fifty shows |
| RealtimeFeed.SortNewest | web/src/lib/history.ts:24-29 | The map's entries, each once, newest first, from any map order |
| RealtimeFeed.LastOfDistinct | web/src/lib/history.ts:4 | Building the map from a list that repeats no id loses nothing of it |
| RealtimeFeed.KeepsLastHighest | web/src/lib/history.ts:3-10 | Of every exchange the last summary with the highest revision is kept |
| RealtimeFeed.MergeNewest | web/src/lib/history.ts:3-10 | The last of the highest revisions of every exchange, newest first; of a repeated current entry only the last takes part |
| RealtimeFeed.MergeRealtime | web/src/lib/realtime-feed.ts:52-60 | Shows one step of the fold, fifty exchanges or all there are; an entry keeps its loaded detail exactly while its revision stays, so a detail always belongs to the revision shown |
| LiveFeed.ReadSummariesCohere | web/src/lib/realtime-feed.ts:13-50 | Summaries of what the server showed at any moments are versions the merge can rely on, even with clocks set back |
| LiveFeed.FeedShowsOneMerge | web/src/lib/components/AppShell.svelte:159-170 | The live feed shows what one merge of everything it has read would show |
| LiveFeed.ActivePlaceExactly | web/src/lib/history.ts:24-29 | An active exchange ranks above another exactly when that is active too and has the smaller id |

## Left out

- Sockets, HTTP servers, SQL execution, WAL and VACUUM themselves, file writes, DNS and goroutine scheduling: tokens, maps and parameters that say whether a call succeeds.
- JSON, YAML, base64, compression and string formatting: decoding and validation of settings are parameters of `Settings.Rules`; event ids are numbers, an encoded event has any size of at least one.
- Proxy headers, URL joining, timings, byte ranges, hex dump, CORS rules, field validators, preview cuts, deep-clone copying, metrics strings, logging, Svelte components: small single-function claims.
- The session cache of the UDP proxy, a third-party library: one session is modelled.
- Storage read failures and undecodable cursors of the history handler, which end the request.
- LiveFeed.FeedShowsOneMerge: does not model the removal of evicted, deleted and dismissed exchanges from the feed between merges.
- RealtimeFeed.MergeRealtime: the current feed repeats no exchange, which every merge keeps.
- Library sorts: `sort.SliceStable` and `Array.sort` appear as the insertion sort they are for short lists. Beyond twenty exchanges `sort.SliceStable` merges sorted blocks, which gives the same list wherever the comparison is a total order, and need not where it is cyclic.
- A Last-Event-ID kept from an earlier server process, whose ids can name other events.
- TraceWalks.TraceWalkListsAll: promises nothing about an exchange at or below the cursor that moves to its completion time, leaves RAM unstored or is deleted between two pages.
- Panics in mode handlers, and int64 wrap of counters other than the reservation sum.
- What a successful update does besides the planes: resizing RAM history (Store.Memory.Resize), retention days, the config.changed event, the response.
- Plans of planes that an embedding program leaves unset; the application always sets all three.
- ReservationProtocol.BytesAccounting: needs sizes that cannot push the sum past int64; ReservationProtocol.BytesHoldExactly says exactly which runs keep the bound.
- Tables.CascadingDatabaseHasNoOrphans: needs every delete to run on a connection that enforces foreign keys; Tables.DeleteLeavesNoOrphans says exactly what happens otherwise.
- Paging.CompleteWalk: each request of the walk meets the remaining history of the one before; Paging.QuietWalkListsAll replaces this by the changes that keep it.
- ReplyLimiter.AtMostTwiceTheLimit: assumes a monotone clock, as the source's time values carry one.
- Authenticator.AdmittedExactly: assumes a monotone clock, and that a fresh random token may repeat only by replacing the older session.
- Lifecycle.NextKeepsInv: a new exchange id is assumed to be unused, as 128 random bits make it.
- Reload.Handler.ApplyConfigurationUpdate: one handler generation without interleaved updates; Handlers covers several, without sockets and without planes being closed.
- LiveFeed.ReadSummariesCohere: takes completion times after the zero time, and rows written by this process.
- Reload.ManagementPlan.Activate: the drained listener is closed later by its own goroutine; it is only marked as draining here.
- Reload.TrafficPlan.Activate: the same.
- Intake.Pipeline.ServeHTTP: one request at a time; Lifecycle interleaves the requests' effects.
