# Taxi service: verified model

This project models the stateful parts of the taxi service and proves that concurrent, repeated or cached
operations agree with a simple sequential meaning.

* **Ride dispatch** (`Database`, `History`, `Dispatch`, `Linearizability`). The tables and the statements that change
  them are atomic operations; runs of those operations keep accepted rides and busy drivers in bijection. `Dispatch` is
  the protocol itself, a transition system with any number of transactions in flight: begin, take the statement snapshot,
  lock, recheck and rewrite the first row, then the second, commit or roll back. Accepting locks driver then ride,
  completing locks ride then driver. Row rechecks follow section 13.2.1 (Read Committed) and the WITH rules section 7.8.4
  of the PostgreSQL manual; a row whose recheck fails may or may not stay locked, and everything holds either way.
* **Response cache** (`Cache`, `Queries`, `Views`, `Changes`, `Server`, `Interleaving`, `Staleness`, `Sequential`). The
  cache as a class and its log; the read queries, what they show over a run and which writes change their answers; the
  handlers run one at a time, where the cache is invisible and each list is read off the writes that went through; and
  the handlers with overlapping steps, where the exact condition for a stale entry is proved with numbered events.
  `Sequential` shows that steps that do not overlap are the handlers.
* **Rate limiter** (`RateLimiter`). The fixed-window counter against its call history. Verdicts are stated for any clock
  readings (`VerdictByBlock`). That a window stays within the limit is not true of all readings: the clock is read before
  the mutex is taken, and a check may come back to an earlier window. `LimitHoldsExactly` and `HistoryMetExactly` say
  when it does hold: if and only if no check returns to a window that already had `limit` checks. Readings that step back
  inside one window do no harm.
* **Event read model** (`ReadModel`, `Redelivery`). The consumer, the model file as a fold over the events that reached
  the save, and what redelivery does to a ride's record. Assumption about the queue: one consumer, a prefetch of one and
  requeueing make a repeated delivery follow directly on the delivery it repeats (section 4.7 of AMQP 0-9-1).
  `LateRedeliveryLeavesTwo` shows what a repetition out of place would do.
* **Tokens and the auth gate** (`Strings`, `Tokens`, `Storage`, `Auth`).

Three places where the code is less than its description. Redelivery of a `ride.accepted` or `ride.completed` to
`event_service/consumer.py` replaces the merged record by the bare payload: `RedeliveredAcceptanceLosesKey` shows a key
that is lost, `RedeliveryCharacterised` says exactly when the record survives. Invalidation after each write does not
keep the cache current when a reader is between its database read and its fill: `StaleHitExample` is such a run,
and `ExactStaleness` says exactly when an entry differs from a fresh query. The limiter admits more than `limit` checks
of a window when clock readings return to it: `RegressingClockAdmitsAll` is such a log, `LimitHoldsExactly` the exact
condition.

The proofs do not need raised limits; `dafny verify dfyconfig.toml` checks the whole project.

## Model

| member | source | states |
|---|---|---|
| Database.ApplyKeepsConsistent | src/storage/taxi_storage.cpp:115-163 | every insert, acceptance and completion keeps foreign keys, unique columns, and the one-to-one matching of accepted rides and busy drivers |
| Database.BusyMatchesAccepted | src/storage/taxi_storage.cpp:115-163 | in consistent tables there are as many busy drivers as accepted rides |
| Database.StatusesPartitionRides | schema.sql:34-52 | in tables without cancelled rides, searching, accepted and completed rides add up to all rides |
| Database.OnlineCarrierAcceptsAgain | data.sql:16-29 | from rows like the seed data, where an online driver carries a ride, that driver can accept a second one, so the matching must hold at the start |
| History.EveryVersionConsistent | schema.sql:18-52 | from empty tables, every committed version is consistent |
| History.EveryVersionConserves | schema.sql:34-52 | from empty tables, in every version busy drivers are as many as accepted rides, the three statuses add up to all rides, and `cancelled` never occurs |
| History.RideEvolves | src/storage/taxi_storage.cpp:115-163 | over any stretch of a run a ride only moves searching, accepted, completed; its driver stays once set; its other columns never change |
| History.RowsPersist | src/storage/taxi_storage.cpp:12-78 | no user or driver row disappears, users never change, drivers change only in status |
| History.AcceptancesExclude | src/storage/taxi_storage.cpp:115-139 | no ride is accepted twice, and a driver accepts again only after the ride it carried was completed in between |
| History.CompletedAtMostOnce | src/storage/taxi_storage.cpp:141-163 | no ride is completed twice |
| History.CompletionFreesItsDriver | src/storage/taxi_storage.cpp:141-163 | a completion has exactly one acceptance of its ride in the log, earlier, and it turns exactly that acceptance's driver from busy to online |
| Dispatch.SnapshotKnowsTheDriver | src/storage/taxi_storage.cpp:155-160 | the driver a completion must free is present in the snapshot of its statement, whatever committed since |
| Dispatch.InstallIsApply | src/storage/taxi_storage.cpp:376-404 | the row versions a transaction wrote before committing are those the atomic operation would write at the moment of the commit |
| Dispatch.StepKeepsInv | src/storage/taxi_storage.cpp:376-404 | every step of every transaction keeps: the history is a run of atomic operations, row locks are exclusive, and each transaction's locks and uncommitted rows fit the newest committed version |
| Linearizability.CommitsAreAtomic | src/storage/taxi_storage.cpp:376-404 | in every interleaving the committed tables are the atomic operations in commit order, each acceptance and completion being the commit of one request |
| Linearizability.SuccessTakesEffectOnce | src/storage/taxi_storage.cpp:376-404 | a successful call has one log entry, between its begin and its return, returns the row written there, and was possible both on its snapshot and where it took effect |
| Linearizability.OnlySnapshotRowsAreAwaited | src/storage/taxi_storage.cpp:116-131 | a transaction waits only for rows its own statement snapshot showed as matching: the online driver or searching ride of an acceptance, the accepted ride of a completion and the busy driver carrying it |
| Linearizability.LocksAreOrdered | src/storage/taxi_storage.cpp:115-163 | an acceptance asks for its driver holding nothing and for its ride holding the driver, already made busy out of sight; a completion asks for its ride holding nothing and for a driver holding the ride |
| Linearizability.RefusalIsJustified | src/storage/taxi_storage.cpp:381-384 | a rolled-back call has no log entry, and at some version between its begin and its rollback the atomic operation was refused |
| Linearizability.DriversStayMatched | src/storage/taxi_storage.cpp:115-163 | every version committed by the protocol is consistent and conserves the counts |
| Linearizability.AcceptancesDoNotOverlap | src/storage/taxi_storage.cpp:376-389 | two successful AcceptRide calls never share a ride, and if they share a driver a successful CompleteRide of the first ride committed between them |
| Linearizability.WaitsDescend | src/storage/taxi_storage.cpp:115-163 | every wait for a row lock leads to a transaction of lower rank; uses that a ride being completed has a busy driver |
| Linearizability.NoDeadlock | src/storage/taxi_storage.cpp:115-163 | the wait-for graph is acyclic in every reachable state and no chain of waits involves more than four transactions |
| Linearizability.SomeoneCanStep | src/storage/taxi_storage.cpp:376-404 | from every unfinished transaction a chain of waits leads to one that can take a step |
| Linearizability.AllCanFinish | src/storage/taxi_storage.cpp:376-404 | all transactions in flight can be brought to commit or rollback |
| Linearizability.EveryScheduleEnds | src/storage/taxi_storage.cpp:376-404 | under any schedule each call in flight takes at most four steps and a finished one none, and a schedule that cannot go on has finished them all |
| Linearizability.AloneDecidesExactly | src/storage/taxi_storage.cpp:376-404 | a call with no other in flight succeeds if and only if the atomic operation is possible on the current tables |
| Storage.TaxiStorage.CreateUser | src/storage/taxi_storage.cpp:205-218 | inserts exactly this row if and only if the id is positive and unused and no user has the login; otherwise changes nothing |
| Storage.TaxiStorage.CreateDriver | src/storage/taxi_storage.cpp:269-285 | inserts exactly this row, online, if and only if the id is positive and unused, the user exists, and user, car number and licence number are unused; otherwise changes nothing |
| Storage.TaxiStorage.CreateRide | src/storage/taxi_storage.cpp:327-341 | inserts exactly this row, searching and without driver, if and only if the id is positive and unused and the passenger exists; otherwise changes nothing |
| Storage.TaxiStorage.AcceptRide | src/storage/taxi_storage.cpp:376-389 | succeeds if and only if the driver is online and the ride is searching, and then changes driver and status of the ride and the status of the driver; the driver update is undone when the ride update matches nothing; equals the atomic acceptance |
| Storage.TaxiStorage.CompleteRide | src/storage/taxi_storage.cpp:391-404 | succeeds if and only if the ride is accepted, and then sets its status and completion time and turns its driver online; equals the atomic completion |
| Storage.TaxiStorage.Login | src/storage/taxi_storage.cpp:251-262 | with unique logins, returns a token if and only if some user has this login and password; the text names that user and the next number, and the table maps it to that user |
| Storage.TaxiStorage.IsTokenValid | src/storage/taxi_storage.cpp:264-267 | true exactly for the tokens earlier logins returned |
| Strings.StartsWithIsPrefix | src/middlewares/auth_middleware.cpp:11-13 | `rfind(prefix, 0) == 0` is the prefix test |
| Strings.StoiReadsIntText | src/handlers/rides_get.cpp:110 | `std::stoi` reads back what decimal formatting wrote, for every `int`, and refuses numbers outside `int` |
| Strings.StoiReadsPrefix | src/handlers/rides_accept.cpp:37 | `std::stoi` on any argument: white space is skipped, a sign and digits are read, the rest is ignored; nothing is read without digits or outside `int` |
| Strings.TextIsDecimal | src/storage/taxi_storage.cpp:165-167 | `std::to_string` writes decimal digits, most significant first, after a minus sign if negative |
| Tokens.MakeTokenInjective | src/storage/taxi_storage.cpp:165-167 | equal tokens come from equal user and token numbers |
| Tokens.TokensAreForever | src/storage/taxi_storage.cpp:258-262 | after any sequence of logins the table has one entry for each, and each token still maps to the user it was issued to |
| Auth.AuthMiddleware.HandleRequest | src/middlewares/auth_middleware.cpp:36-66 | a request passes if and only if its path is /ping, /users, /auth/login, /mongo/users or begins with /tests/, or its header is `Bearer ` followed by a token an earlier login returned; the first error is given exactly when the path is none of these and the header has not that form |
| Cache.ResponseCache.Get | src/performance/simple_performance.hpp:28-47 | answers the unexpired entry, drops an expired one, counts a hit or a miss |
| Cache.ResponseCache.Set | src/performance/simple_performance.hpp:49-58 | stores the value with its expiry and changes nothing else |
| Cache.ResponseCache.InvalidatePrefix | src/performance/simple_performance.hpp:60-70 | erasing while iterating, in any order, leaves exactly the entries whose keys lack the prefix |
| Cache.ResponseCache.GetStats | src/performance/simple_performance.hpp:72-80 | whatever calls led to this state: the reads that were answered, the reads that were not (modulo 2^64), and the number of keys under which a store survives |
| Cache.GetAnswersSurvivor | src/performance/simple_performance.hpp:28-70 | for any clock readings: a read answers the store that no later call removed and that has not expired |
| Cache.GetAnswersLastSet | src/performance/simple_performance.hpp:28-70 | with a monotone clock: a read answers the last store under the key not invalidated since and not expired, else nothing |
| Cache.CountersCountReads | src/performance/simple_performance.hpp:28-47 | hits are the answered reads and misses the others, modulo 2^64 |
| Cache.HitIsYoungerThanTtl | src/performance/simple_performance.hpp:28-58 | a hit's store read the clock later than the read's time less the time to live |
| Queries.KeysAreDistinct | src/handlers/rides_get.cpp:97-98 | different cached queries have different keys |
| Queries.PrefixesCoverKeys | src/handlers/users_get.cpp:41-42 | `rides:` is a prefix of exactly the ride keys, `users:` of exactly the user keys, `drivers:` of none |
| Queries.WritesStayInTheirPrefix | src/handlers/drivers_create.cpp:51 | a successful write changes the answer of no cached query outside the prefix it invalidates |
| Views.ActiveMeansUnfinished | src/storage/taxi_storage.cpp:103-113 | the active list holds exactly the rides created and not yet completed in the run |
| Views.HistoryMeansCreated | src/storage/taxi_storage.cpp:91-101 | a passenger's history holds exactly the rides created for that passenger |
| Views.LoginFindsOneUser | src/storage/taxi_storage.cpp:24-28 | a login is found if and only if a user was created with it, and at most one row matches |
| Views.RowFromLog | src/storage/taxi_storage.cpp:69-163 | in every version each ride row has the passenger, addresses and time of its creation in the log, the driver of its acceptance, the time of its completion, and the status these imply |
| Views.ListedRidesAreLogged | src/storage/taxi_storage.cpp:91-113 | every ride on the active list or in a passenger's history is shown with passenger, pickup and destination of its creation, the driver of its acceptance or 0, and its status |
| Views.MaskListsMatchingUsers | src/storage/taxi_storage.cpp:30-35 | a mask lists exactly the users created with a matching name, each with its login and name |
| Views.LoginListsItsUser | src/storage/taxi_storage.cpp:24-28 | a login shows exactly the user created with it, with login and name |
| Changes.RideChangesExactly | src/storage/taxi_storage.cpp:69-163 | two versions differ in a ride's row if and only if a write between them created, accepted or completed it |
| Changes.AnswerChangesExactly | src/storage/taxi_storage.cpp:12-113 | between two versions a query's answer changed if and only if a write between them matters to it: a user created with the login or matching the mask; a write to a ride of the passenger; a write to a ride that existed before or is not completed now |
| Changes.FoundLoginIsFinal | src/storage/taxi_storage.cpp:24-28 | once a login is found, no later write changes its answer |
| Server.TaxiServer.RidesGet | src/handlers/rides_get.cpp:59-133 | which arguments are refused with 400; 429 exactly when the limiter refuses (key, 100, 60); a live entry under this key is served as it is; otherwise exactly the selected rows with their columns are served and stored for 15 or 60 seconds; 500 for a passenger that is no number |
| Server.TaxiServer.UsersGet | src/handlers/users_get.cpp:22-86 | 400 unless exactly one argument is given; a live entry under this key is served as it is; otherwise exactly the selected users with login and name are served and stored for 60 seconds; a missing user is answered 404 and not stored |
| Server.TaxiServer.RidesAccept | src/handlers/rides_accept.cpp:20-65 | for ride number and driver: 200 with the ride's columns, this driver and `accepted`, exactly those two rows changed and the `rides:` entries dropped, if the driver is online and the ride searching; else 409 with nothing changed; 400 and 500 for bad arguments |
| Server.TaxiServer.RidesComplete | src/handlers/rides_complete.cpp:19-54 | for the ride number: 200 with the ride's columns and `completed`, ride and driver changed and the `rides:` entries dropped, if the ride is accepted; else 409 with nothing changed; 400 and 500 for bad arguments |
| Server.TaxiServer.RidesCreate | src/handlers/rides_create.cpp:20-62 | 201 with the new searching ride, exactly this row added and the `rides:` entries dropped, if the passenger exists; else 409 with nothing changed; 400 for missing arguments |
| Server.TaxiServer.UsersCreate | src/handlers/users_create.cpp:20-57 | 201 with id, login and name, exactly this row added and the `users:` entries dropped, if the login is new; else 409 with nothing changed; 400 for missing arguments |
| Server.TaxiServer.DriversCreate | src/handlers/drivers_create.cpp:20-64 | 201 with the new online driver, exactly this row added and only the `drivers:` entries dropped, if the user exists and nothing clashes; else 409 with nothing changed; 400 for missing arguments |
| Server.StepAgrees | src/handlers/rides_get.cpp:97-132 | while every entry agrees with a fresh query, one request gets the uncached server's response and tables, and the agreement persists |
| Server.CacheIsInvisible | src/handlers/users_get.cpp:41-85 | for every sequence of requests and any clock readings, status and body equal those of the server without the cache |
| Server.ActiveListServesTheLog | src/handlers/rides_get.cpp:59-133 | after any requests and with whatever is cached, GET /rides?status=active answers 429 or exactly the rides created and not completed by the writes that went through, each shown as those writes tell |
| Server.HistoryServesTheLog | src/handlers/rides_get.cpp:97-121 | likewise GET /rides?user_id answers exactly the rides created for that passenger |
| Server.ActiveRidesThroughput | src/handlers/rides_get.cpp:78-95 | unless a request returns to a minute that already had 100 active-ride requests, any 60 seconds admit at most 200 of them, cache hits included |
| Server.ActiveRidesPerMinute | src/handlers/rides_get.cpp:78-95 | under the same condition every minute after the epoch's first admits the smaller of 100 and the active-ride requests it saw |
| Server.OrderedMinutesNeverReturn | src/handlers/rides_get.cpp:78-95 | limiter readings whose minutes come in order, in any order inside a minute, satisfy that condition |
| Interleaving.StepKeepsInv | src/handlers/rides_get.cpp:97-132 | every step of overlapping readers and writers keeps the origin of each cached, pending and served body, and what every later commit owes it |
| Staleness.ServedBodiesHaveAnOrigin | src/handlers/rides_get.cpp:97-132 | every body served is its own query's answer on some version committed by then; for a miss, one not older than the request |
| Staleness.ExactStaleness | src/performance/simple_performance.hpp:49-70 | an entry differs from a fresh query if and only if a commit that matters to its query came after its database read and that commit's invalidation is still owed or ran before the fill |
| Staleness.ExactlyStaleHits | src/handlers/rides_get.cpp:100-103 | what a hit serves differs from a fresh query at that moment if and only if such a commit exists |
| Staleness.LoginEntriesAreFresh | src/handlers/users_get.cpp:41-85 | in every interleaving a cached user found by login equals a fresh query |
| Staleness.MissingCommitsExactly | src/performance/simple_performance.hpp:49-70 | a commit to the key's family is missing from an entry if and only if it came after the entry's database read and its invalidation is still owed or ran before the fill |
| Staleness.StaleOnceInvalidatedIsOvertaken | src/performance/simple_performance.hpp:49-70 | a commit missing from an entry although its invalidation has run: the invalidation ran between the database read and the fill |
| Staleness.UndisturbedEntriesAreFresh | src/performance/simple_performance.hpp:49-70 | with no invalidation owed and no fill overtaken, an entry equals a fresh query |
| Staleness.HitsAreRecent | src/performance/simple_performance.hpp:28-58 | a hit was filled less than 15 (active rides) or 60 seconds before its clock reading; with at most `delay` between read and fill it contains every commit made that much earlier |
| Staleness.OvertakenFillIsStale | src/handlers/rides_get.cpp:117-130 | whenever a write that changes the answer commits and invalidates between a reader's database read and its fill, the fill leaves an out-of-date entry although the write's invalidation has run |
| Staleness.NextReaderIsServedTheEntry | src/handlers/rides_get.cpp:100-103 | until it expires, the entry is what the next reader of its key is served |
| Staleness.StaleHitExample | src/handlers/users_get.cpp:71-85 | a concrete run serves a stale hit with every invalidation done |
| Sequential.ReaderAlone | src/handlers/rides_get.cpp:97-132 | the steps of a reader with nobody else's in between leave the cache and give the response that the handler does |
| Sequential.WriterAlone | src/handlers/rides_accept.cpp:55-65 | the steps of a writer with nobody else's in between change tables and cache as the handler does |
| RateLimiter.FixedWindowRateLimiter.Check | src/performance/simple_performance.hpp:110-157 | the bucket update and the verdict |
| RateLimiter.ResetIsAhead | src/performance/simple_performance.hpp:124-129 | the reset is a multiple of the window, the first one after the clock reading, or before the epoch the second one unless the reading is itself a multiple; so it is at most one window later if and only if the clock is not before the epoch or on a multiple |
| RateLimiter.LimiterMeetsHistory | src/performance/simple_performance.hpp:133-156 | a check that does not come back to its window from another is allowed if and only if fewer than `limit` earlier checks of the key were allowed in the window, and `remaining` is the limit less those allowed so far |
| RateLimiter.VerdictByBlock | src/performance/simple_performance.hpp:131-156 | any clock: a check is allowed if and only if fewer than `limit` checks of its key came before it without leaving its window; `remaining` is the limit less those and itself |
| RateLimiter.HistoryMetExactly | src/performance/simple_performance.hpp:115-156 | all checks of a key are judged by the number allowed in their window if and only if none returns to a window that already had `limit` checks (a limit that is not positive refuses every check) |
| RateLimiter.LimitHoldsExactly | src/performance/simple_performance.hpp:115-156 | under the same condition, and only under it, no window allows more than `limit` checks of the key |
| RateLimiter.RemainingMetExactly | src/performance/simple_performance.hpp:138-156 | `remaining` is the limit less the checks allowed in the window if and only if the check does not come back to the window or its own block has used up the limit |
| RateLimiter.OrderedWindowsNeverReturn | src/performance/simple_performance.hpp:115-131 | readings whose windows come in order never return to a window, even if they step back inside one |
| RateLimiter.BlockAllowsUpToLimit | src/performance/simple_performance.hpp:133-156 | any clock: a block of consecutive same-window checks of a key allows the smaller of the limit and its length |
| RateLimiter.SlidingBound | src/performance/simple_performance.hpp:117-157 | unless a check returns to a window that already had `limit` checks, any L seconds allow at most limit * (ceil((L-1)/window) + 1) checks of a key |
| RateLimiter.WholeWindowAllows | src/performance/simple_performance.hpp:117-157 | under the same condition a window after the epoch's first allows, in its seconds, the smaller of the limit and its checks |
| RateLimiter.BoundaryBurst | src/performance/simple_performance.hpp:117-157 | the bound is met even by a monotone clock: two seconds across a window boundary can allow twice the limit |
| RateLimiter.RegressingClockAdmitsAll | src/performance/simple_performance.hpp:115-138 | with readings that step back and forth over a boundary every check is allowed |
| ReadModel.Consumer.UpdateReadModel | event_service/consumer.py:32-64 | applies the event and saves, or raises and leaves the file as it was even after entries were popped in memory |
| ReadModel.Consumer.HandleMessage | event_service/consumer.py:67-86 | acknowledges if and only if the message is complete for its type; otherwise, or when the type is no ride event, the file stays; the three ride types move the ride between the sections with merged payloads, and the summary of every ride event joins the last 20 |
| ReadModel.DeliveryIsHandled | event_service/consumer.py:32-86 | the same of every stored model and every message: which section loses and which gains the ride, under which key, with which record, for each of the literal event types |
| ReadModel.RideMessageIsEvent | event_service/consumer.py:35-60 | a complete message of a ride type is the event of that kind, ride, payload and summary |
| ReadModel.StoredIsFoldOfSaved | event_service/consumer.py:54-86 | after any deliveries the file is the fold over exactly the events that reached the save, and `last_events` holds the last 20 of them |
| ReadModel.RideDependsOnItsEvents | event_service/consumer.py:38-52 | a ride's place and record are decided by its own events alone |
| ReadModel.ReorderingAcrossRidesIsHarmless | event_service/consumer.py:32-52 | sequences with the same events for each ride in the same order give equal active, accepted and completed maps |
| Redelivery.RideAfterRedelivery | event_service/consumer.py:38-52 | with each event of a legal history repeated in place, the ride stands in the section of its last event alone, with the merge of its last surviving payloads |
| Redelivery.RedeliveryCharacterised | event_service/consumer.py:38-52 | in any stream: same section as exactly-once delivery; the record is the merge of the last k >= 1 payloads, extends the last, is contained in the exactly-once record, and equals it if and only if the lost payloads bring no key of their own |
| Redelivery.RedeliveredAcceptanceLosesKey | event_service/consumer.py:42-46 | an acceptance delivered twice in place loses every key that only the creation had; delivered once it keeps them |
| Redelivery.RedeliveredMessages | event_service/consumer.py:38-86 | the characterisation for the file after any stream of messages, malformed and other ones included, each delivered one or more times in place |
| Redelivery.RedeliveredMessageLosesKey | event_service/consumer.py:42-46 | for a `ride.created` and a `ride.accepted` message: a key only the first carries is stored after one delivery of the second and gone after two |
| Redelivery.OnlyCreationsRepeated | event_service/consumer.py:38-52 | when a ride's acceptance and completion were delivered once, its record is the exactly-once record |
| Redelivery.LateRedeliveryLeavesTwo | event_service/consumer.py:38-46 | a creation redelivered after the acceptance leaves the ride in two sections |

## Left out

- UpdateDriverStatus (src/storage/taxi_storage.cpp:317-325): no handler calls it, and it would break the matching, so it is no step of the model.
- Storage.TaxiStorage.Login: the token counter is a C++ `int`; a login that would overflow it is excluded by its precondition.
- Storage.TaxiStorage: runs one call at a time; the overlap of its transactions is what `Dispatch` models, and there statements are steps of a transition system rather than methods.
- Queries.Fresh: a body is the set of shown rows by id, with the columns a client sees; ORDER BY and the JSON text are deterministic functions of the rows and are not modelled, and `LIKE` with `lower` is a parameter.
- Foreign-key share locks: they do not conflict with updates of other columns, and the ones an acceptance takes are on a row it has locked itself.
- CHECK constraints and VARCHAR lengths: a violating insert raises and changes nothing; the model lets such inserts through, so its runs include all of the service's.
- Identity sequences and the database clock: the ids and times they supply are parameters; ids need only be unused and positive.
- Replica lag of reads sent to `kSlave`: one PostgreSQL host, reads see the newest committed version.
- Seed data as an initial state: its rows do not satisfy the matching; runs start from the empty tables.
- Crashes between commit and invalidation, and partial writes of the read-model file.
- HTTP and userver plumbing, headers, JSON parsing, hit rate as a floating-point number.
- MongoDB handlers and scripts, the RabbitMQ connection and the event producer; the service publishes no events, so nothing links the tables to the read model.
