# PicHost state layer: a Dafny model

PicHost keeps its state behind two interchangeable backends, Redis with PostgreSQL and
SQLite alone. This project models that layer and the protocols that run on it, and proves
what they keep. `dafny verify dfyconfig.toml` checks everything.

**The task queue.** `RedisStore` has the Redis keys and commands. `RedisProtocol` is a step
system: any number of enqueuers, workers and recoveries, one program counter each, one Redis
command per step, and a crash possible before every command (a Redis error in the middle of
an operation looks the same). About its runs are proved: no task is lost except in one
window, and when exactly that happens (`RedisNoLoss`); under a recovery discipline every
unfinished task is in exactly one place (`RedisExactlyOnce`), and without it exactly when it
comes to be in two (`RedisTwoPlaces`); what the stamp of a dequeue protects against
(`RedisMarks`); ids are dequeued in the order they were pushed (`RedisFifo`); retries are bounded (`RedisRetry`), and a task is dead
exactly when it has used them up (`RedisDeath`); payloads survive and dead tasks are marked in
the database unless they died of a time-out (`RedisDeadLetter`). `RedisRuns` has the runs that
show what the assumptions are for. `AbstractQueue` is the queue both backends implement.
`RedisQueue` and `SqliteQueue` refine it, `TwoBackends` compares them call by call,
`QueueRecords` says what the hash and the row of each task hold after any history,
`RedisBackend.RedisQueue` and `SqliteQueue.SqliteQueue` are the imperative classes, `RedisSolo`
shows that the step system run by one process computes the same operations, `LiteWorker`
treats the embedded worker and `Workers` one round of each worker.

**The rate limiters.** `RateLimits` has both as functions of hit times, the counting bounds
and the order between them; `RateLimiters` has them as classes over their stores;
`RateLimiterConcurrent` interleaves INCR, EXPIRE and GET of many calls.

**The metadata cache.** `ImageCache` has the requests one at a time, with any DELs lost,
`CacheStaleness` interleaved with failures and with writers that do not invalidate.

**Tokens, uploads, categories, text.** `Tokens` is rotation and logout over a blacklist with
expiring entries; `Uploads` is quota and deduplication with two backends interleaved;
`Categories` is the two-level forest and its tree; `EnvFile` edits `.env` files; `Timestamps`
compares expiry texts; `Messages` fills placeholders. `Commons`, `Sums` and `Text` are shared.

## Assumptions of the main theorems

- `RedisNoLoss` assumes nothing: any interleaving, any crashes, any number of recoveries.
- An *orderly* run (`RedisExactlyOnce.Orderly`) enqueues fresh ids, starts a recovery only
  while no worker holds a task and no other recovery runs, and dequeues only while no recovery
  runs. That is what one worker process does: it recovers before it spawns its workers. A
  second process that starts later breaks the rule, and `RedisRuns.OverlapDuplicates` gives
  the run in which a task is then in two places. Crashes are allowed in orderly runs.
- `RedisTwoPlaces` assumes fresh ids only.
- `RedisRetry` in addition excludes recovery; `RedisDeadLetter.DeadMarkedUnlessTimedOut`
  excludes crashes, and `RedisDeath` excludes both.
- The refinements assume that operations run one at a time and that acks and nacks come from
  the holder.
- The cache requests come from the owner of the images they name.

## Where code and intention part

The model follows the code. The theorems that show the difference:

- A nack and a recovery remove an id from one list before they push it on another. A crash
  between the two loses it (`RedisRuns.WindowCrashLoses`); nothing else does
  (`RedisNoLoss.DroppedOnlyByWindowCrash`).
- Neither looks at the count that its LREM returns. A task that is somewhere comes to be in two
  places exactly when that count is zero (`RedisTwoPlaces.SecondPlaceIffBlind`).
- The stamp of a dequeue keeps a recovery away only if it is written before the recovery checks
  the task (`RedisQueue.DequeueProtects`, `RedisMarks.MarkProtects`). Between that check and the
  LREM it comes too late, and the task is taken from its worker (`RedisRuns.LateMarkIsTaken`).
- The SQLite nack stores a retry count that the dequeue never reads, so in lite mode no task
  with a retry left is ever dead-lettered, and one that always fails and is the oldest blocks
  all others (`LiteWorker.RetriesNeverExhausted`, `LiteWorker.FailsForever`,
  `LiteWorker.OldestIsRetriedForever`). Feeding the column back would restore the bound
  (`LiteWorker.FeedbackRestoresBound`, `LiteWorker.DequeuesAreBounded`).
- A worker that times out throws the result of its nack away, so a task that dies that way
  leaves its image unmarked (`RedisDeadLetter.DeadMarkedUnlessTimedOut`,
  `RedisRuns.TimedOutDeathIsUnmarked`).
- `Cache::incr` says that it sets the expiry on creation; it renews it on every hit. A client
  that keeps asking is therefore denied until it stops for a whole window
  (`RateLimits.RedisDeniesUntilGap`), and the wait it is told is always the whole window.
- Uploads go to one or two backends and deduplicate per config, but the migrations of both
  databases keep a unique index on (user, sha256) (`migrations/0002_create_images.sql:17`,
  `migrations-sqlite/0002_create_images.sql:18`). With it an upload to two configs never
  succeeds (`Uploads.TwoConfigsNeverSucceed`), though one of its rows may stay
  (`Uploads.OneRowStays`). `indexed` switches between the two readings; without the index an
  upload that both backends store can exceed the quota (`Uploads.ExceedsIff`).
- Rust writes expiry times with chrono's `%f`, which is nanoseconds without seconds, so
  expiry is right to the minute only (`Timestamps.WrongByLessThanAMinute`,
  `Timestamps.BothErrorsHappen`).
- Renaming a category takes any name, trimmed or not, empty or (on SQLite) too long, and answers
  a taken one with an internal error (`Categories.CategoryStore.Rename`).
- A reader that is overtaken by a writer and its DEL leaves a stale entry behind, although
  every DEL works (`CacheStaleness.ReaderOvertakenByWriter`); where every writer invalidates,
  nothing else does (`CacheStaleness.TurnsStaleIff`).

## Model

| member | source | states |
|---|---|---|
| `RedisStore.LRem` | pichost-worker/src/queue.rs:191-212 | LREM with count 1 removes one occurrence and nothing else |
| `RedisStore.LRemIsLeftmost` | pichost-worker/src/queue.rs:191-212 | and it is the leftmost one |
| `RedisNoLoss.NoTaskLost` | pichost-worker/src/queue.rs:118-377 | in every state of every run an enqueued id is listed, carried between an LREM and its LPUSH, finished or dropped; no dequeue reports MissingData, because the data is written before the LPUSH |
| `RedisNoLoss.DroppedOnlyByWindowCrash` | pichost-worker/src/queue.rs:214-260 | an id is dropped if and only if some process crashed while it carried it between LREM and LPUSH |
| `RedisNoLoss.NoLossWithoutWindowCrash` | pichost-worker/src/queue.rs:118-377 | without such a crash every enqueued id is listed, carried or finished |
| `RedisNoLoss.CommandTracks` | pichost-worker/src/queue.rs:191-377 | a single command of any operation loses no id, except the LREM of an ack |
| `RedisExactlyOnce.ExactlyOnePlace` | pichost-worker/src/queue.rs:267-377 | in orderly runs an unfinished id is in exactly one place (or nowhere once dropped), never in two, and no two processes hold one id |
| `RedisExactlyOnce.CommandEffect` | pichost-worker/src/queue.rs:118-377 | what each command does to the three lists and to what its process holds |
| `RedisTwoPlaces.StepWeighs` | pichost-worker/src/queue.rs:118-377 | a step adds at most one place to an id, and does so exactly when it is the LPUSH of an enqueue or the LREM of a nack or recovery that finds no entry |
| `RedisTwoPlaces.SecondPlaceIffBlind` | pichost-worker/src/queue.rs:214-377 | in runs with fresh ids, recoveries overlapping in any way, an id comes to be in a second place exactly at such an LREM while it is listed or carried |
| `RedisTwoPlaces.TwoPlacesIffBlind` | pichost-worker/src/queue.rs:214-377 | a run ever has an id in two places if and only if it has such an LREM |
| `RedisRetry.RetriesAreBounded` | pichost-worker/src/queue.rs:74-101 | without recovery, with crashes anywhere, a task fails and is dequeued at most max_retries - retry_count + 1 times, its stored count never passes the maximum, and a dead task has failed exactly that often |
| `RedisDeath.DeadIffExhausted` | pichost-worker/src/queue.rs:214-260 | without recovery and crashes, once no process has hold of it, a task is dead if and only if it has failed max_retries - retry_count + 1 times |
| `RedisDeath.SettledSomewhere` | pichost-worker/src/main.rs:183-204 | and it is pending, dead or finished |
| `RedisRetry.DequeuesAreBounded` | pichost-worker/src/main.rs:159-205 | the worker loops of a whole run dequeue at most as often as the allowances of all enqueued tasks add up to |
| `RedisRetry.DequeuesAreCounted` | pichost-worker/src/queue.rs:142-189 | the dequeues of a run are the sum of those of the enqueued tasks |
| `RedisDeadLetter.PayloadSurvives` | pichost-worker/src/queue.rs:74-101 | through retries and recoveries only the retry count of a stored payload changes |
| `RedisDeadLetter.DeadMarkedUnlessTimedOut` | pichost-worker/src/main.rs:225-303 | the image of a dead task is marked failed if and only if its last attempt returned an error and did not time out |
| `RedisMarks.MarkProtects` | pichost-worker/src/queue.rs:294-307 | in every run a recovery that removes an id after a dequeue stamped it, at the cutoff or later, had found it stale before the stamp |
| `RedisMarks.OnlyOldMarksAreRemoved` | pichost-worker/src/queue.rs:294-307 | in orderly runs a recovery only ever removes what was stamped before its cutoff |
| `RedisMarks.OnlyTimedOutIsTaken` | pichost-worker/src/queue.rs:267-318 | and, under a clock that does not go back, only what was stamped more than the timeout before it began |
| `RedisFifo.FirstInFirstOut` | pichost-worker/src/queue.rs:118-156 | in every run the ids pushed on pending, in order, are those dequeued, in order, and then those that wait |
| `RedisFifo.DequeuedInOrder` | pichost-worker/src/queue.rs:118-156 | so the k-th id dequeued is the k-th id pushed |
| `QueueRecords.HashTellsStory` | pichost-worker/src/queue.rs:118-377 | after any history of calls the hash of each task holds the payload with the retries counted, the status, both times and the last error that the history tells |
| `QueueRecords.RowTellsStory` | pichost-core/src/state/sqlite_queue.rs:20-104 | the same for the row: payload as enqueued, status, retry column, claim and both times, from the enqueueing to the ack |
| `TwoBackends.SameAnswersSameQueue` | pichost-core/src/state/sqlite_queue.rs:33-104 | the same calls with the same answers on the Redis queue from an empty store and on the SQLite queue from an empty table leave both with the same pending, processing, dead and finished ids after every call |
| `TwoBackends.RedisTrace` | pichost-worker/src/queue.rs:57-101 | every run of the Redis queue is a run of the abstract queue |
| `TwoBackends.SqliteTrace` | pichost-core/src/state/sqlite_queue.rs:33-104 | every run of the SQLite queue is one |
| `TwoBackends.AlikeForOneTask` | pichost-core/src/state/sqlite_queue.rs:34-65 | the two do answer alike |
| `AbstractQueue.SameOpsSameQueue` | pichost-core/src/state/sqlite_queue.rs:33-104 | the answers determine the abstract state |
| `AbstractQueue.IdsAreKept` | pichost-core/src/state/sqlite_queue.rs:33-104 | the abstract queue never has an id in two places and never loses one |
| `RedisQueue.EnqueueRefines` | pichost-worker/src/queue.rs:118-140 | an enqueue adds a fresh id to pending |
| `RedisQueue.DequeueRefines` | pichost-worker/src/queue.rs:142-189 | a dequeue moves one pending id to processing and returns its payload, or pending was empty; it never fails in a sound store |
| `RedisQueue.DequeueOutcomes` | pichost-worker/src/queue.rs:142-189 | on any store, written out: what each kind of entry does to the lists and what is answered |
| `RedisQueue.DequeueProtects` | pichost-worker/src/queue.rs:182 | on any store, after a successful dequeue at `now` a recovery leaves the entries of the id in processing if its cutoff is at most `now`, and takes one if it is later |
| `RedisQueue.AckRefines` | pichost-worker/src/queue.rs:191-212 | an ack by the holder moves the id from processing to finished |
| `RedisQueue.NackRefines` | pichost-worker/src/queue.rs:214-260 | a nack by the holder moves the id to pending if a retry is left, else to dead |
| `RedisQueue.NackOutcomes` | pichost-worker/src/queue.rs:74-101 | on any store, written out: an error that changes nothing, or the lists by the caller's numbers |
| `RedisQueue.RecoveryConserves` | pichost-worker/src/queue.rs:267-318 | recovery conserves the entries of pending and processing, duplicates included, and pushes the moved ones in order |
| `RedisQueue.RecoveryMovesTheStale` | pichost-worker/src/queue.rs:320-377 | it moves exactly the entries that are stale and readable, each once |
| `RedisQueue.RecoveryLeaves` | pichost-worker/src/queue.rs:285-307 | on any store an entry that is unparsable, not stamped, stamped at the cutoff or later, or without a readable payload stays with all its copies; any other leaves processing once |
| `RedisQueue.RecoveryReturns` | pichost-worker/src/queue.rs:337-377 | the answer is the list of the payloads of what it moved |
| `RedisQueue.RecoverRefines` | pichost-worker/src/queue.rs:267-318 | as an operation of the abstract queue it returns those ids from processing to pending |
| `RedisBackend.RedisQueue.Enqueue` | pichost-worker/src/queue.rs:118-140 | the commands in their order compute the specified store and refine the abstract enqueue |
| `RedisBackend.RedisQueue.DequeueTask` | pichost-worker/src/queue.rs:142-189 | as computed by the specification, on any store: empty, unparsable id, missing data, corrupt data, success |
| `RedisBackend.RedisQueue.Dequeue` | pichost-worker/src/queue.rs:64-69 | refines the abstract dequeue |
| `RedisBackend.RedisQueue.Ack` | pichost-worker/src/queue.rs:191-212 | computes the specified store and refines the abstract ack |
| `RedisBackend.RedisQueue.Nack` | pichost-worker/src/queue.rs:74-101 | reads the stored payload, takes the caller's counts, and refines the abstract nack; errors on missing or corrupt data |
| `RedisBackend.RedisQueue.NackTask` | pichost-worker/src/queue.rs:214-260 | the retry and the dead-letter branch |
| `RedisBackend.RedisQueue.RecoverSnapshot` | pichost-worker/src/queue.rs:267-318 | the loop over the LRANGE snapshot computes the specified recovery, on any store |
| `RedisBackend.RedisQueue.RecoverStale` | pichost-worker/src/queue.rs:267-318 | refines the abstract reclaim |
| `RedisBackend.RedisQueue.RecoverSingle` | pichost-worker/src/queue.rs:337-377 | the writes for one recovered id |
| `RedisSolo.EnqueueAlone` | pichost-worker/src/queue.rs:118-140 | the step system run by one process computes the sequential enqueue |
| `RedisSolo.DequeueAlone` | pichost-worker/src/queue.rs:142-189 | the same for dequeue, with each of its errors |
| `RedisSolo.AckAlone` | pichost-worker/src/queue.rs:191-212 | the same for ack |
| `RedisSolo.NackAlone` | pichost-worker/src/queue.rs:214-260 | the same for nack, both branches |
| `RedisSolo.RecoverAlone` | pichost-worker/src/queue.rs:267-377 | the same for a whole recovery |
| `RedisRuns.OverlapDuplicates` | pichost-worker/src/main.rs:86 | recovery while a worker holds a stale task puts its id in two places |
| `RedisRuns.WindowCrashLoses` | pichost-worker/src/queue.rs:214-260 | a crash in the window of a nack loses what it carried |
| `RedisRuns.TimedOutDeathIsUnmarked` | pichost-worker/src/main.rs:255-262 | a task with no retry left that times out is in the dead list after its one failure, and its image is not marked |
| `RedisRuns.LateMarkIsTaken` | pichost-worker/src/queue.rs:294-377 | a stamp between the check of a recovery and its LREM comes too late: the task leaves processing under its worker |
| `SqliteQueue.PendingIsEligible` | pichost-core/src/state/sqlite_queue.rs:47-65 | while "processing if and only if claimed" holds, the dequeue filter hides no pending row |
| `SqliteQueue.SomeSelected` | pichost-core/src/state/sqlite_queue.rs:47-65 | if some row is eligible the statement finds an oldest one |
| `SqliteQueue.ClaimRefines` | pichost-core/src/state/sqlite_queue.rs:47-65 | claiming a row is the abstract dequeue and keeps the invariant |
| `SqliteQueue.NackRefines` | pichost-core/src/state/sqlite_queue.rs:76-104 | a nack is the abstract nack and keeps the invariant |
| `SqliteQueue.ReclaimRefines` | pichost-core/src/state/sqlite_queue.rs:20-30 | reclaiming makes every row that is not dead dequeueable |
| `SqliteQueue.AnyIdKeepsInvariant` | pichost-core/src/state/sqlite_queue.rs:67-104 | an ack or nack of any id at all keeps the invariant |
| `SqliteQueue.SqliteQueue.Enqueue` | pichost-core/src/state/sqlite_queue.rs:34-45 | inserts a pending row, or fails on a duplicate id and changes nothing |
| `SqliteQueue.SqliteQueue.Dequeue` | pichost-core/src/state/sqlite_queue.rs:47-65 | claims an oldest eligible row and returns its payload as enqueued; None exactly when nothing is pending |
| `SqliteQueue.SqliteQueue.Ack` | pichost-core/src/state/sqlite_queue.rs:67-74 | deletes the row |
| `SqliteQueue.SqliteQueue.NackTask` | pichost-core/src/state/sqlite_queue.rs:76-104 | pending with the raised column, or dead |
| `SqliteQueue.SqliteQueue.ReclaimStale` | pichost-core/src/state/sqlite_queue.rs:20-30 | returns every processing row to pending |
| `LiteWorker.RetriesNeverExhausted` | pichost-api/src/app.rs:177-204 | as coded a dequeued payload keeps its enqueued retry count, and a row is dead if and only if it failed and came without a retry |
| `LiteWorker.OldestIsRetriedForever` | pichost-core/src/state/sqlite_queue.rs:47-104 | while nothing succeeds, whatever newer tasks are enqueued and however often the process restarts, every dequeue selects a strictly oldest row that has a retry |
| `LiteWorker.FailsForever` | pichost-core/src/state/sqlite_queue.rs:47-104 | a task with a retry can fail any number of times and still wait to be tried |
| `LiteWorker.OldestCanBeTried` | pichost-api/src/app.rs:157-175 | and that row can always be tried, and fail, once more |
| `LiteWorker.FeedbackRestoresBound` | pichost-core/src/state/sqlite_queue.rs:76-104 | feeding the column back, a task is dequeued at most its budget plus one times, not counting attempts that restarts cut short; a row fails at most that often and is dead exactly then |
| `LiteWorker.DequeuesAreBounded` | pichost-api/src/app.rs:157-175 | and a run without restarts dequeues at most as often as the budgets of all enqueued tasks, and one for each, add up to |
| `Workers.NackFailedTask` | pichost-worker/src/main.rs:268-303 | the database is told of the failure, with its error, exactly when the retries are used up |
| `Workers.HandleTaskResult` | pichost-worker/src/main.rs:225-264 | ack, nack or nack without telling the database, by outcome |
| `Workers.ServeOne` | pichost-worker/src/main.rs:183-204 | one round leaves nothing held, and its task finished, dead or pending |
| `Workers.WorkerDb.HandleDeadLetter` | pichost-worker/src/main.rs:306-342 | records the failed task with its error and marks its image; either write may fail unnoticed |
| `Workers.HandleTask` | pichost-api/src/app.rs:179-204 | the embedded worker's answer is the success or failure step of the lite system |
| `RateLimits.SqlCountBelowRedis` | pichost-api/src/cache/mod.rs:130-150 | on ordered hit times the fixed bucket's count never passes the Redis count |
| `RateLimits.RedisAllowsImpliesSqlAllows` | pichost-api/src/middleware/rate_limit.rs:73-98 | what the Redis limiter allows the SQLite limiter allows |
| `RateLimits.SqlIsNotRedis` | pichost-core/src/state/sqlite_rate_limiter.rs:24-46 | the converse fails |
| `RateLimits.SqlAllowsFirstOfBucket` | pichost-core/src/state/sqlite_rate_limiter.rs:24-46 | exactly the hits with fewer than `limit` predecessors in their bucket are allowed |
| `RateLimits.InBucketIff` | pichost-core/src/state/sqlite_rate_limiter.rs:24 | a bucket is the times of one window, counted from zero |
| `RateLimits.SqlIntervalBound` | pichost-core/src/state/sqlite_rate_limiter.rs:24-46 | at most (n + 1) * limit hits are allowed in any half-open interval of n windows |
| `RateLimits.RedisIntervalBound` | pichost-api/src/middleware/rate_limit.rs:80-97 | at most `limit` hits are allowed in any half-open interval of one window |
| `RateLimits.SomeHitBegins` | pichost-api/src/cache/mod.rs:130-150 | each hit belongs to exactly one run of hits with no window without a hit inside |
| `RateLimits.RedisAllowsFirstOfRun` | pichost-api/src/middleware/rate_limit.rs:80-97 | and is allowed if and only if fewer than `limit` hits of that run precede it |
| `RateLimits.RedisDeniesUntilGap` | pichost-api/src/cache/mod.rs:130-150 | after a denial every hit up to j is denied if and only if no window without a hit lies between |
| `RateLimiters.SqliteRateLimiter.Check` | pichost-core/src/state/sqlite_rate_limiter.rs:17-46 | allowed if and only if fewer than `limit` earlier hits lie in the bucket of now; failures are errors |
| `RateLimiters.RedisRateLimiter.Incr` | pichost-api/src/cache/mod.rs:130-150 | INCR on a live and on an expired key |
| `RateLimiters.RedisRateLimiter.Hit` | pichost-api/src/cache/mod.rs:130-150 | INCR and EXPIRE keep the counter of every policy and key equal to the function of its hit times |
| `RateLimiters.RedisRateLimiter.Check` | pichost-api/src/middleware/rate_limit.rs:73-98 | allowed if and only if fewer than `limit` hits precede it in its run of hits; a denied caller is told to wait a whole window |
| `RateLimiters.RlKeyInjective` | pichost-api/src/middleware/rate_limit.rs:43-45 | two subjects of colon-free policies never share a counter |
| `RateLimiters.ColonsCollide` | pichost-api/src/middleware/rate_limit.rs:43-45 | policies with a colon could |
| `RateLimiters.LimiterCheck` | pichost-api/src/middleware/rate_limit.rs:183-212 | a failing limiter lets the request through |
| `RateLimiters.CheckBoth` | pichost-api/src/middleware/rate_limit.rs:73-98 | with the same history, what the Redis object lets through the SQLite object lets through |
| `RateLimiterConcurrent.OwnGenerationBound` | pichost-api/src/cache/mod.rs:130-150 | however INCR, EXPIRE, GET, expiries and deaths interleave, at most `limit` calls are let through on one generation's own count |
| `RateLimiterConcurrent.ExcessIsStrays` | pichost-api/src/middleware/rate_limit.rs:80-97 | in any run a generation lets through at most `limit` calls and those whose GET met another generation |
| `RateLimiterConcurrent.LimitPerGeneration` | pichost-api/src/middleware/rate_limit.rs:80-97 | with no expiry between a call's INCR and its GET, at most `limit` calls of a generation are let through |
| `RateLimiterConcurrent.GetAllowsIff` | pichost-api/src/middleware/rate_limit.rs:80-97 | in any run a GET that finds the key lets its call through if and only if at most `limit` calls ran INCR in the generation it meets |
| `RateLimiterConcurrent.DeniedIff` | pichost-api/src/middleware/rate_limit.rs:80-97 | with no expiry between INCR and GET a call is denied if and only if `limit` other calls of its generation ran INCR before its GET |
| `RateLimiterConcurrent.ExpiryInFlightBreaksTheLimit` | pichost-api/src/middleware/rate_limit.rs:183-212 | without that assumption the bound fails |
| `ImageCache.ImageApi.GetImage` | pichost-api/src/routes/images.rs:556-601 | answers as the uncached read while the cache is coherent; a miss keeps the row for 600 seconds, nothing else changes the cache; and after any requests with any lost DELs every row answered was the database row less than 600 seconds before |
| `ImageCache.ImageApi.Rename` | pichost-api/src/routes/images.rs:682-710 | a name of no or more than 255 bytes, or with a slash, backslash or NUL, is refused, a missing image not found; else it updates and deletes the key; a coherent cache stays so if and only if the DEL worked, nothing live was cached or the name did not change |
| `ImageCache.ImageApi.Move` | pichost-api/src/routes/images.rs:1179-1227 | the same for a move |
| `ImageCache.ImageApi.Delete` | pichost-api/src/routes/images.rs:989-1030 | the same for a deletion |
| `ImageCache.ImageApi.DelAll` | pichost-api/src/routes/images.rs:1290-1292 | the DELs of a batch |
| `ImageCache.ImageApi.WriteBatch` | pichost-api/src/routes/images.rs:1290-1292 | the write of a batch and its DELs: coherent if and only if every changed live key was deleted |
| `ImageCache.ImageApi.BatchMove` | pichost-api/src/routes/images.rs:1254-1298 | refuses no or more than 100 ids; moves the named images that exist, and deletes the keys whose DEL works; coherent if and only if every changed live key was deleted |
| `ImageCache.ImageApi.BatchDelete` | pichost-api/src/routes/images.rs:1080-1136 | deletes them, counts deleted and missing ids; coherent under the same condition |
| `ImageCache.BatchAgreement` | pichost-api/src/routes/images.rs:1127-1129 | why a batch leaves the cache coherent exactly then |
| `ImageCache.WriteAgreement` | pichost-api/src/routes/images.rs:704-707 | the same for a single write |
| `CacheStaleness.BoundedStaleness` | pichost-api/src/routes/images.rs:556-601 | every row returned was the database row of its id less than TTL plus the reader's delay earlier, under any interleaving, failures and writers that do not invalidate; absence is always fresh |
| `CacheStaleness.NoStaleEntry` | pichost-api/src/cache/mod.rs:32-49 | if every writer invalidates and no DEL runs beside a reader with an outdated row, an entry is the current row whenever its row is not being written |
| `CacheStaleness.TurnsStaleIff` | pichost-api/src/cache/mod.rs:32-49 | if every writer invalidates, a live entry whose row is not being written turns stale at a step if and only if that step is a working store of a row the database no longer has |
| `CacheStaleness.EverStaleIff` | pichost-api/src/cache/mod.rs:32-49 | such a run ever has a stale entry if and only if it has such a store |
| `CacheStaleness.ReaderOvertakenByWriter` | pichost-api/src/cache/mod.rs:32-49 | and such a store happens although every DEL works |
| `CacheStaleness.CarefulStepIsExact` | pichost-api/src/routes/images.rs:704-707 | each single step keeps an entry exact |
| `Tokens.AccessAcceptedIffUnspent` | pichost-api/src/middleware/auth.rs:106-142 | before exp an access token is accepted if and only if no request revoked it; after exp plus leeway never |
| `Tokens.RefreshAcceptedIffUnspent` | pichost-api/src/routes/auth.rs:496-540 | the same for redeeming a refresh token |
| `Tokens.RedeemedIff` | pichost-api/src/routes/auth.rs:496-562 | in any state a refresh token is redeemed if and only if it is within exp and leeway, the check worked and found no live entry, and the user exists; a refused refresh changes nothing |
| `Tokens.RedeemedInRunsIff` | pichost-api/src/routes/auth.rs:496-562 | in runs, before exp: if and only if it is unspent, the check worked and the user exists |
| `Tokens.RedeemedAtMostOnce` | pichost-api/src/routes/auth.rs:496-562 | a refresh token is redeemed at most once before its exp |
| `Tokens.RevokedAccessStaysRejected` | pichost-api/src/routes/auth.rs:186-202 | an access token revoked by logout or rotation is rejected at every later time outside [exp, exp + leeway] |
| `Tokens.CoverageNeverShortened` | pichost-api/src/routes/auth.rs:186-202 | repeated revocations keep the entry until exp and less than a second longer |
| `Tokens.IssuedPairWorks` | pichost-api/src/routes/auth.rs:95-133 | a login or rotation hands out a linked pair with the configured lifetimes, and both tokens work at once |
| `Tokens.AuthService.LogIn` | pichost-api/src/routes/auth.rs:95-133 | issues a pair with the configured lifetimes |
| `Tokens.AuthService.Authenticate` | pichost-api/src/middleware/auth.rs:106-142 | expired, revoked (or check failed), or accepted |
| `Tokens.AuthService.RevokeToken` | pichost-api/src/middleware/auth.rs:51-57 | SETEX; a lifetime of zero changes nothing |
| `Tokens.AuthService.RefreshTokens` | pichost-api/src/routes/auth.rs:496-562 | expired, revoked (or check failed), unknown user, else a new pair and both old tokens revoked |
| `Tokens.AuthService.LogOut` | pichost-api/src/routes/auth.rs:564-605 | revokes an unexpired access token, accepts an expired one |
| `Uploads.RunIsSound` | pichost-api/src/services/upload.rs:1081-1149 | after any uploads and deletions no two rows share user, content and config; usage is within the quota plus one file, and within the quota with the index |
| `Uploads.JoinKeepsNoTwins` | pichost-api/src/services/upload.rs:298-332 | two backends interleaved in any way create no twins |
| `Uploads.UsageAfter` | pichost-api/src/services/upload.rs:1108-1149 | each stored backend costs one file of usage, and other users none |
| `Uploads.QuotaAfterUpload` | pichost-api/src/services/upload.rs:237-291 | an accepted upload stays in the quota with one config or with the index, else exceeds it by at most its own size |
| `Uploads.ExceedsIff` | pichost-api/src/services/upload.rs:263-291 | it exceeds the quota if and only if two backends store it and two files do not fit |
| `Uploads.ExcessIsOneFile` | pichost-api/src/services/upload.rs:237-291 | in every run a user is over quota only after an upload stored twice, and by at most the size of its file |
| `Uploads.OneConfigKeepsQuota` | pichost-api/src/services/upload.rs:237-291 | a user whose uploads name one config each is never over quota |
| `Uploads.QuotaExceededByOneFile` | pichost-api/src/services/upload.rs:263-291 | two stores of a file that just fits exceed the quota by its whole size |
| `Uploads.TwoStoresHappen` | pichost-api/src/services/upload.rs:1108-1149 | and both can |
| `Uploads.IndexAllowsOneRow` | migrations/0002_create_images.sql:17 | the index lets at most one backend store, and only new content |
| `Uploads.TwoConfigsNeverSucceed` | migrations-sqlite/0002_create_images.sql:18 | so an upload to two configs never succeeds |
| `Uploads.OneRowStays` | pichost-api/src/services/upload.rs:1108-1149 | though it may leave a row behind |
| `Uploads.RepeatAddsNothing` | pichost-api/src/services/upload.rs:944-968 | repeating a fully successful upload adds no row |
| `Uploads.RepeatSucceeds` | pichost-api/src/services/upload.rs:944-968 | where every config has the content and the queries work, the upload fully succeeds, index or not |
| `Uploads.WorkingUploadSucceeds` | pichost-api/src/services/upload.rs:1108-1149 | without the index every upload whose queries work does |
| `Uploads.FailedTurnFails` | pichost-api/src/services/upload.rs:1108-1149 | a backend whose query failed has failed, however the others go on |
| `Uploads.RowsAfter` | pichost-api/src/services/upload.rs:1108-1149 | an upload keeps all rows and appends rows of its own file and configs |
| `Uploads.RowsFitLimit` | pichost-api/src/services/upload.rs:250-257 | in every run no row of a user who is not an admin is larger than the user limit, and none of an admin than the admin limit |
| `Uploads.AcceptedConfigs` | pichost-api/src/services/upload.rs:630-649 | an upload that is run has one or two configs, one of them local |
| `Uploads.UploadService.ProcessUpload` | pichost-api/src/services/upload.rs:1001-1055 | each refusal if and only if its condition holds and none before it does: not an image, larger than the limit of the role, over quota, more than two configs, none local; then the backends, and an error if any of them failed, though what was stored stays |
| `Categories.ValidateDepthIsExact` | pichost-api/src/routes/categories.rs:75-118 | on any parent graph the check accepts a parent if and only if its chain of own ancestors ends within the bound; it tells a too deep chain from a broken one |
| `Categories.ParentMustBeRoot` | pichost-api/src/routes/categories.rs:75-118 | with the bound of the program it accepts exactly the user's roots, misses exactly what is not the user's, and finds exactly the user's children too deep |
| `Categories.AppendKeepsForest` | pichost-api/src/routes/categories.rs:150-200 | a creation keeps the two-level forest |
| `Categories.AppendKeepsSiblingsIff` | migrations/0009_create_categories.sql:9 | a creation keeps the names under each parent distinct if and only if the constraint lets it through |
| `Categories.RenameKeepsSiblingsIff` | migrations/0009_create_categories.sql:9 | the same for a renaming |
| `Categories.CascadeKeepsForest` | migrations/0009_create_categories.sql:7 | a deletion with its cascade keeps it, so the cascade ends with the children |
| `Categories.CascadeConcat` | migrations/0009_create_categories.sql:7 | what is left keeps its order |
| `Categories.TreeListsEachRowOnce` | pichost-api/src/routes/categories.rs:46-71 | the tree of a forest lists every row exactly once |
| `Categories.TreeInOrder` | pichost-api/src/routes/categories.rs:46-71 | roots in row order, under each exactly its children in row order, and every node shows the name and parent of its row |
| `Categories.BuildTree` | pichost-api/src/routes/categories.rs:46-60 | the loop builds that tree |
| `Categories.OwnRowsFormForest` | pichost-api/src/routes/categories.rs:123-148 | one user's rows of a forest are a forest |
| `Categories.NewestComesLast` | pichost-api/src/routes/categories.rs:133-137 | a new category is listed behind the older ones of its user and parent, and in no other list |
| `Text.TrimExact` | pichost-api/src/routes/categories.rs:168 | trimming a name takes off white space only, and all of it at both ends |
| `Categories.CategoryStore.Create` | pichost-api/src/routes/categories.rs:150-200 | each answer if and only if its condition holds: a trimmed name of no or more than 128 bytes, a parent that is not the user's, one that is a child, a name taken under that parent; no two siblings ever share a name, and names stay proper |
| `Categories.CategoryStore.Rename` | pichost-api/src/routes/categories.rs:237-287 | sets the name of the user's category to what it is given; a taken name is an internal error; all names stay proper if and only if this one is |
| `Categories.CategoryStore.Delete` | pichost-api/src/routes/categories.rs:290-325 | removes the user's category and its children, nothing else, and keeps the order of the rest |
| `Categories.CategoryStore.List` | pichost-api/src/routes/categories.rs:123-148 | every row of the user once, under its own parent |
| `EnvFile.UpsertEnv` | pichost-api/src/setup/env_writer.rs:9-25 | the two loops write the kept lines and one line per update |
| `EnvFile.LineEndings` | pichost-api/src/setup/env_writer.rs:9-25 | lines end at LF or CR LF; a last line without one keeps all its text |
| `EnvFile.UpsertReadsBack` | pichost-api/src/setup/env_writer.rs:5-25 | read back, the file has all other lines in order, one line per updated key with its value, and no other spelling of it |
| `EnvFile.SingleUnderscoreReplaces` | pichost-api/src/setup/env_writer.rs:5-7 | the leftmost pair of underscores becomes one underscore, and so on with the rest |
| `EnvFile.SingleUnderscoreFixes` | pichost-api/src/setup/env_writer.rs:5-7 | a key without such a pair stays as it is |
| `EnvFile.IdempotentIff` | pichost-api/src/setup/env_writer.rs:9-25 | editing twice is editing once if and only if no kept line ends in a carriage return |
| `EnvFile.EnsureServiceEnv` | pichost-api/src/service.rs:29-50 | for any file and directory the result passes `env_has_valid_jwt`; a valid file is left alone, else one line is appended; a first start writes four lines, mode, database path, storage path and secret |
| `EnvFile.StartTwice` | pichost-api/src/service.rs:29-50 | a second start changes nothing |
| `EnvFile.AppendedLineCounts` | pichost-api/src/service.rs:7-13 | a valid line appended after a newline makes a file pass |
| `EnvFile.SecretLength` | pichost-api/src/service.rs:7-13 | a plain secret, quoted or not, counts if and only if it has 32 bytes or more |
| `EnvFile.UnquoteExact` | pichost-api/src/service.rs:11 | of a value white space and then quotes go from both ends, and nothing else |
| `EnvFile.DefaultsReadBack` | pichost-api/src/service.rs:37-42 | each path of a first start is read back under its own key |
| `Timestamps.RenderOrder` | pichost-core/src/state/sqlite_blacklist.rs:17-32 | zero-padded fixed-width fields are an order embedding |
| `Timestamps.HeadSpelled` | pichost-core/src/state/sqlite_blacklist.rs:30-32 | the part both formats share is year, month, day, hour and minute with their separators |
| `Timestamps.DigitAt` | pichost-core/src/state/sqlite_blacklist.rs:30-32 | a field shows its decimal digits |
| `Timestamps.SqliteClockDecides` | pichost-core/src/state/sqlite_blacklist.rs:17-32 | `expires_at > now` in SQLite holds if and only if the minute is earlier, or it is the same and now's second is at most the first two digits of the expiry's nanoseconds |
| `Timestamps.RustClockDecides` | pichost-core/src/state/sqlite_invite.rs:107-110 | with both texts from Rust the nanoseconds decide inside a minute |
| `Timestamps.OneFormatWouldDecide` | pichost-core/src/state/sqlite_invite.rs:18-34 | with SQLite's format on both sides text order is time order to the millisecond |
| `Timestamps.WrongByLessThanAMinute` | pichost-core/src/state/sqlite_blacklist.rs:17-32 | the texts agree with time in different minutes, so a wrong answer is wrong by less than 60 s |
| `Timestamps.BothErrorsHappen` | pichost-core/src/state/sqlite_invite.rs:18-34 | expiry is decided early and late |
| `Timestamps.SqliteBlacklist.Revoke` | pichost-core/src/state/sqlite_blacklist.rs:29-44 | an upsert of the expiry |
| `Timestamps.SqliteBlacklist.Check` | pichost-core/src/state/sqlite_blacklist.rs:17-27 | right outside the expiry's minute, and exactly what inside it |
| `Timestamps.SqliteInviteStore.Create` | pichost-core/src/state/sqlite_invite.rs:17-29 | a new code, or an error that changes nothing |
| `Timestamps.SqliteInviteStore.Verify` | pichost-core/src/state/sqlite_invite.rs:31-41 | as `Check`, for unused codes |
| `Timestamps.SqliteInviteStore.VerifyDetail` | pichost-core/src/state/sqlite_invite.rs:93-115 | missing, used, expired or valid; inside the minute by nanoseconds |
| `Timestamps.SqliteInviteStore.Consume` | pichost-core/src/state/sqlite_invite.rs:43-59 | a code is used once; expiry is not looked at |
| `Messages.SequentialIsSimultaneous` | pichost-core/src/i18n.rs:77-83 | if every argument but the last is safe, replacing one after the other fills hole i with argument i, for any template and number of arguments |
| `Messages.FillWeaves` | pichost-core/src/i18n.rs:77-83 | filled all at once, a template is its pieces with the arguments between them |
| `Messages.PiecesOf` | pichost-core/src/i18n.rs:77-83 | every message is a template of pieces without holes |
| `Messages.SafeIff` | pichost-core/src/i18n.rs:77-83 | an argument is filled in right in every template before every other argument if and only if it is safe: not empty, without `{}`, not starting with `}` and not ending with `{` |
| `Messages.TArgs` | pichost-core/src/i18n.rs:71-83 | the message of the asked locale whenever it exists, else the English one, else the key, with its holes filled so |

## Left out

- HTTP, extractors, pools, metrics, logging, and the storage backends: a storage write is a step that works or fails.
- JWT signatures, SHA-256, AES-GCM, Argon2 and JSON: opaque; serialization round-trips, hashes are values, and presented tokens were issued.
- Ownership and roles: who may read or write what is not claimed; the cache model is keyed by image id, as the code's keys are.
- Concurrent uploads of one user, simultaneous refreshes with one token and the Redis invite store: check-then-act races; these claims are about requests one at a time.
- Image processing, watermarks and thumbnails, the thumbnail cache and the user statistics: no state that the theorems need.
- Other writers of image rows that do not delete cache keys (deleting a category or a user, changing a storage config): covered by `WriteOnly` in `CacheStaleness`, absent from `ImageCache`.
- The waiting of BRPOPLPUSH, poll intervals and sleeps: a dequeue finds an entry or does not.
- RateLimiters.RedisRateLimiter.Check: the window is fixed per limiter, as `RATE_LIMIT_WINDOW_SECS` fixes it; a hit at the very millisecond of expiry finds the key gone.
- RateLimits.SqlIntervalBound: counters are unbounded integers; the 32- and 64-bit widths of the source are not modelled, here or in the quota sums.
- Tokens.RevokedAccessStaysRejected: claims nothing on [exp, exp + leeway], where the decoder still accepts and the blacklist entry may have ended.
- Timestamps.WrongByLessThanAMinute: a time is its civil fields up to the year 9999, without leap seconds; the calendar itself is chrono's and is not part of this model.
- RedisDeadLetter.DeadMarkedUnlessTimedOut: the step system takes the update that marks an image to work; `Workers.WorkerDb.HandleDeadLetter` lets it fail.
- Uploads.UploadService.ProcessUpload: the lookup of configs is a parameter, so its own errors appear as an empty list or a failed key; the retries of `generate_public_key` are part of the file write.
- Categories.CategoryStore.Rename: names are stored in SQLite's TEXT column; on PostgreSQL the VARCHAR(128) column also fails for more than 128 characters.
- EnvFile.EnsureServiceEnv: reading and writing the file and creating directories; `apply_env_file` and its temporary file.
- Reloading of message catalogs and the parsing of their TOML.
- Configuration files, migrations as programs, the web interface.
