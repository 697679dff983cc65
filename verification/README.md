# Verified models of Nova's caching, locking and analysis code

Nova caches Django query results behind generation tokens, invalidates them from model
signals, and ships small concurrent services (a task queue, a rate limiter, a leased
lock) and an offline analyser for garbage-collection reports. This project models the
parts where a mistake would be silent, and proves what they promise for every input,
every run or every reachable state. `dafny verify dfyconfig.toml` checks all of it.

## How it is organised

- **The query cache.** `CacheIndex.dfy` holds the vocabulary and the bookkeeping of one
  process as values. `QuerySetCache.dfy` is the class that changes this bookkeeping in
  place, section by section, over a store whose commands may fail; its methods are proved
  against the values. `Coherence.dfy` is the whole system: any number of processes and
  threads, one database, one shared store, with token writes that may arrive arbitrarily
  late, once or never. `CoherenceInvariant.dfy` and `CoherenceSteps.dfy` prove its
  invariant step by step, `CoherenceTheorems.dfy` states the promises over all runs, and
  `CoherenceReplay.dfy`, `CoherenceRepair.dfy` and `CoherenceFill.dfy` show that undisturbed
  fills repair what is pending or missing and are served, also after a clear, and that the single-attempt rule for token writes cannot be dropped. `LocalFence.dfy` is the
  same cache over a backend without generations.
- **Around the cache.** `GenerationStore.dfy` (reading, creating and rotating tokens under
  interference), `GenerationTransport.dfy` (one write attempt per token),
  `ScopeNames.dfy` and `ModelNames.dfy` (the texts that connect signals to queries),
  `RelationGraph.dfy` (which models are subscribed), `RedisNamespace.dfy` (the glob pattern
  and SCAN loop of `clear`), `MemoryCache.dfy` (the LRU and TTL backend).
- **Services.** `TaskQueue.dfy`, `RateLimiter.dfy`, `Locks.dfy`.
- **Analysis.** `Graphs.dfy` and `GraphAnalysis.dfy` (Kosaraju and the cycle closure),
  `Intervals.dfy`, `GcSummary.dfy` and `Accounting.dfy` (time accounting), `Paths.dfy`
  (redundant relation paths of the planner). `Sets.dfy` is a fact on set sizes that
  several files share.

A system of several actors is a total step function over a state, a run is a sequence of
events, and an event that is not enabled changes nothing; so "every run" is "every
sequence of events". Objects that the source updates in place are classes whose methods
state their whole new state.

## Assumptions

- Generation tokens (`uuid4`) are never drawn twice, and neither are task, request and
  lock identifiers. Digests are injective, so a result key is the tuple of its parts.
- Each store command is atomic. A failed or unanswered command may have been applied.
  A token write is applied at most once, at any later time; result writes may be repeated.
- SQL reads table by table, each table in the state that is committed when it is read; a
  row list is represented by how much of the commit log each table's read had seen.
- An acknowledged `clear` removed the tokens that were present when it began, as a Redis
  prefix clear and a Memcached flush do.
- A backend without generations stores on `set`, or raises without having stored.
- Clocks in memory, lock and limiter models are numbers, and the limiter's stamps are not
  negative; what a result needs of its clocks beyond that, it says.
- The limiter's script runs once for each request. For locks, every attempt at a command
  that was sent counts: one that was given up on may run late and more than once. Commands
  are sent again after a timeout unless configured otherwise (`redis_retry_on_timeout`,
  src/nova/conf.py:54), so one acknowledged `release` may hide an attempt that was given up on.
- The model registry does not change between two calls that connect signals.
- After `disconnect` a connection holds no unread reply, and a pool reopens a closed
  connection before handing it out.

## What the proofs brought to light

- Protection of other processes needs every token write to be sent once: with a replay
  step, a reader is served rows that an invalidation had already ruled out
  (`CoherenceReplay.ReplayServesStaleRows`, `CoherenceFill.StaleRowsAreServed`).
- The rate limiter counts as a log that forgets nothing would exactly on steady clocks,
  whatever the clocks (`RateLimiter.SteadyExactly`): while an admission is in the window of
  some request, no request in between bears a stamp a window later, and none reaches the
  server a window after the admission that last set the expiry. One clock that never runs
  backwards is steady; a stamp that steps back need not break steadiness, unless one a window
  or more ahead came before it. Steadiness is also exact for the decisions when the stamps or
  the server's clock never run backwards (`RateLimiter.DecisionsExactly`), and for the bound
  when the stamps never do (`RateLimiter.BoundForMonotoneStamps`).
- For stamps of any kind steadiness is more than the bound needs
  (`RateLimiter.OrderlyNotSteady`). If the server's clock never runs backwards, the bound
  holds exactly when no two requests close by their stamps are a window apart on the server,
  and no two requests are both overtaken by a stamp a window later before a third one that
  fits into a window with them (`RateLimiter.BoundExactly`). A stamp far ahead of two
  requests, followed by a step back, breaks it (`RateLimiter.ClockStepsBack`); and two clocks
  that never run backwards are not enough either, because the key expires by the server's
  clock while requests are counted by their stamps (`RateLimiter.KeyExpiresTooEarly`).
- A lock object whose release was given up on must not be used again: the old unlock
  script carries the same identifier and can end the new lease
  (`LockProtocol.LateReleaseBreaksExclusion`). That is the only way, and always a way, for
  two objects to hold the lock at once (`LockProtocol.ExclusionExactly`). Acquiring a lock
  the same object already holds clears its flag and leaves the lease to run out
  (`LockProtocol.ReacquireForgets`).
- Two Redis prefixes that nest at a colon share keys, so clearing one can clear keys of the
  other (`Glob.OtherBackendsAreSafe` gives the exact condition). A SCAN reply without its
  two parts ends `clear` without an error and without completing it (`RedisClear.Clear`).
- With a negative `maxsize` the memory backend empties itself and then raises
  (`MemoryCache.MemoryCacheBackend.Set`).
- Index names keep the case of the app label while invalidation names are lowered; they
  still meet, because both contain the short model name
  (`ModelNames.SignalsFindQueries`).

## Model

| member | source | states |
|---|---|---|
| CacheIndex.RegisterConsistent | src/nova/cache/queryset_cache.py:391-398 | registering keeps the two indexes inverse, adds exactly the given names to the key and touches no other key |
| CacheIndex.UnregisterConsistent | src/nova/cache/queryset_cache.py:400-410 | forgetting a key keeps the indexes inverse without empty buckets, clears that key's names only, and leaves pending rotations alone |
| CacheIndex.MatchingIndexed | src/nova/cache/queryset_cache.py:552-573 | the keys an invalidation collects by bucket are exactly the indexed keys that share a name and lie on the database, and blocking them keeps every blocked key indexed |
| CacheIndex.ForgetOneMore | src/nova/cache/queryset_cache.py:576-588 | deleting key after key adds up to forgetting the whole acknowledged set, in any order |
| CacheIndex.ForgetConsistent | src/nova/cache/queryset_cache.py:576-588 | whatever subset of deletes was acknowledged, the indexes stay inverse without empty buckets and blocked keys stay indexed |
| QuerySetCacheClass.QuerySetCache.RegisterKey | src/nova/cache/queryset_cache.py:391-398 | the loop over names produces the registered bookkeeping |
| QuerySetCacheClass.QuerySetCache.UnregisterKey | src/nova/cache/queryset_cache.py:400-410 | the loop over the key's names produces the unregistered bookkeeping, dropping emptied buckets |
| QuerySetCacheClass.QuerySetCache.ReadGenerations | src/nova/cache/queryset_cache.py:216-238 | on success every requested scope has its stored token and none is pending, and a scope that was pending got a token drawn during the call; on failure pending scopes are only ever discharged; a token is replaced only where a rotation was pending, and created only where none was |
| QuerySetCacheClass.QuerySetCache.GenerationsMatch | src/nova/cache/queryset_cache.py:240-248 | it answers yes only if every token of the key is the stored one now and no scope of the key is pending |
| QuerySetCacheClass.QuerySetCache.Lookup | src/nova/cache/queryset_cache.py:434-448 | a hit is a stored entry, not blocked, not during a failed clear, confirmed token by token, and is registered; a miss means that one of these was lacking or a command failed, and changes no index; the error reaches the caller if and only if a command failed for a key without tokens |
| QuerySetCacheClass.QuerySetCache.StoreRows | src/nova/cache/queryset_cache.py:494-507 | rows are published under the original key only if no local invalidation or clear intervened and, on a shared backend, every token of the key is the stored one and none is pending; then the key is indexed and readable; they are kept back for no other reason but a failed command, whose error reaches the caller if and only if the key has no tokens |
| QuerySetCacheClass.QuerySetCache.InvalidateModel | src/nova/cache/queryset_cache.py:514-600 | the fence is bumped, the rotation is acknowledged or stays pending, every matching key is blocked, every due command is tried once, acknowledged deletes are forgotten and counted if they removed something, and nothing else changes, no other token among it |
| QuerySetCacheClass.QuerySetCache.DeleteKeys | src/nova/cache/queryset_cache.py:574-588 | each key is tried once, exactly the acknowledged ones are forgotten and the others are as many as the failures, and the count is the number of entries those deletes removed |
| QuerySetCacheClass.QuerySetCache.Clear | src/nova/cache/queryset_cache.py:608-630 | the fence is bumped; success empties both indexes, the blocked keys and the pending scopes and lifts the bypass flag; failure sets the flag and leaves the rest |
| CoherenceSteps.StepInv | src/nova/cache/queryset_cache.py:216-588 | every step of every actor keeps the coherence invariant |
| CoherenceSteps.RunInv | src/nova/cache/queryset_cache.py:216-588 | the invariant holds in every reachable state |
| CoherenceSteps.ReadTokenInv | src/nova/cache/backends/redis.py:103-110 | reading a token, or starting one of at most three creations, keeps the invariant |
| CoherenceSteps.RotationAckedInv | src/nova/cache/queryset_cache.py:223-226 | discharging a pending rotation is sound: the acknowledged token arrived after the fence |
| CoherenceSteps.PublishDoneInv | src/nova/cache/queryset_cache.py:499-507 | publishing, whether acknowledged, failed or applied late, stores only rows read after every token in their key arrived |
| CoherenceSteps.InvalidateRotatedInv | src/nova/cache/queryset_cache.py:539-573 | after a rotation that succeeded or failed, every older token of the scope is ruled out or the scope is pending |
| CoherenceSteps.ClearDoneInv | src/nova/cache/queryset_cache.py:614-630 | dropping the pending rotations after an acknowledged clear is sound, because the tokens they were to replace are gone |
| CoherenceTheorems.NeverCurrentAgain | src/nova/cache/generation.py:17-24 | in every run, a token that was current and was replaced or evicted is never current again |
| CoherenceTheorems.ArrivedSince | src/nova/cache/generation.py:57-59 | a token current now but not at an earlier moment arrived after all commits made by that moment |
| CoherenceTheorems.Observed | src/nova/cache/queryset_cache.py:227-234 | every token a reader holds was current at the step at which it was seen |
| CoherenceTheorems.HitConfirmed | src/nova/cache/queryset_cache.py:437-438 | behind every hit, each scope of the key was checked at a definite step at which the key's token was current |
| CoherenceTheorems.HitsAreFresh | src/nova/cache/queryset_cache.py:453-512 | if a key's token was not current at some moment before the hit's last check of its scope, every table's rows were read after that moment's commits |
| CoherenceTheorems.HitsFollowRotation | src/nova/cache/queryset_cache.py:453-512 | a hit whose last check of a scope follows the arrival of a rotation sent for it after a commit returns rows read after that commit, in every interleaving |
| CoherenceTheorems.InvalidationIsFinal | src/nova/cache/queryset_cache.py:535-588 | once an invalidation began in a process, no lookup confirmed later in that process hits rows read before it, for any query with that scope, whatever failed, is in flight or was cleared in between |
| CoherenceTheorems.IndexesStayConsistent | src/nova/cache/queryset_cache.py:391-410 | over every run and process, the two indexes are inverse, have no empty bucket, and every blocked key is indexed |
| CoherenceTheorems.PublishedIsConfirmed | src/nova/cache/queryset_cache.py:494-507 | over every run, for whatever is sent to be stored, each token of its key was seen to be current at a definite step after SQL had read each of its tables |
| CoherenceTheorems.OnlyPublishSends | src/nova/cache/queryset_cache.py:494-507 | no other step of any actor sends rows to the store |
| CoherenceTheorems.CreationsAreBounded | src/nova/cache/backends/redis.py:103-114 | over every run, no reader sends more than three creations for one scope |
| CoherenceTheorems.FailureFallsBack | src/nova/cache/queryset_cache.py:424-466 | over every run, whatever fails while tokens are read or checked, the section ends with its lock free, no bookkeeping and nothing stored changed, and goes on to SQL exactly after a lookup of `get_or_set` |
| CoherenceTheorems.MissesFill | src/nova/cache/queryset_cache.py:434-484 | a miss of `get` never reads the database, and a miss of `get_or_set` always does |
| CoherenceReplay.ServableIsServed | src/nova/cache/queryset_cache.py:424-446 | an entry stored under the current tokens, not blocked and with nothing pending, is served: the protocol does not protect by never hitting |
| CoherenceReplay.InvalidatePassEffect | src/nova/cache/queryset_cache.py:535-588 | an undisturbed invalidation installs one fresh token, removes exactly the entries its process has indexed for the model, and changes nothing of any other process |
| CoherenceReplay.ReplayServesStaleRows | src/nova/cache/generation_transport.py:29-58 | with one replayed token write, from any state with a servable query, a commit followed by an applied invalidation from a process that has not indexed the entry is followed by a hit on rows read before the commit |
| CoherenceFill.FillIsServable | src/nova/cache/queryset_cache.py:453-512 | from any reachable state in which a query does not hit and no failed clear bypasses the cache, an undisturbed `get_or_set`, repeating the rotations that are pending, creating the tokens that are missing and reading its tables in any order, stores the rows read at that commit and leaves them servable to its process; it changes nothing of any other, and no token but where a rotation was pending |
| CoherenceRepair.RepairPassEffect | src/nova/cache/queryset_cache.py:216-238 | an undisturbed reading of generations ends with the current token of every scope, nothing of the query pending, and tokens never drawn before exactly where one was pending or missing |
| CoherenceFill.FillIsServed | src/nova/cache/queryset_cache.py:424-512 | after that fill, the next lookup is a hit on the rows just read |
| CoherenceFill.ClearPassEffect | src/nova/cache/queryset_cache.py:608-630 | an acknowledged clear leaves an empty store, resets the bookkeeping of its process but for the fence, frees the lock and touches no other process |
| CoherenceFill.ClearRestores | src/nova/cache/queryset_cache.py:608-630 | from any reachable state in which a thread may begin, bypassed or not and whatever failed before, an undisturbed clear, a fill that creates the tokens again, and a lookup end in a hit on the rows the fill read |
| CoherenceFill.StaleRowsAreServed | src/nova/cache/generation.py:17-24 | a complete run from the empty system: two rotations, a fill, a commit and an applied invalidation, after which one replayed token write makes the next lookup return the rows from before the commit |
| LocalFence.StepInv | src/nova/cache/queryset_cache.py:453-630 | without generations, every lookup, read, store, invalidation and clear keeps stored entries indexed under all their names and fresh or unreadable |
| LocalFence.InvalidationIsFinal | src/nova/cache/queryset_cache.py:474-507 | once an invalidation ran, no later lookup hits rows read before it, with failed deletes, fills in flight and clears in any order |
| LocalFence.StoredIsIndexed | src/nova/cache/queryset_cache.py:505-507 | in every run each entry this cache stored is indexed under all names of its query |
| LocalFence.FillIsServed | src/nova/cache/queryset_cache.py:424-512 | whatever was blocked, evicted or invalidated before, an undisturbed fill of a query that misses stores its rows, touches no other entry, and the next lookup of any thread is a hit on them |
| LocalFence.ClearRestores | src/nova/cache/queryset_cache.py:608-630 | from any state at all, after an acknowledged clear a fill is followed by a hit on the rows it read |
| LocalFence.BypassedUntilCleared | src/nova/cache/queryset_cache.py:608-630 | in every run, from a clear that failed until one is acknowledged, no lookup hits and nothing is stored that was not there before |
| Tokens.ValidateIsExact | src/nova/cache/generation.py:62-76 | validation accepts a 32-digit lower-case hexadecimal token as text or as its ASCII bytes, returns it unchanged, and rejects everything else |
| GenerationStore.GetGeneration | src/nova/cache/backends/redis.py:98-114 | under any interference, it returns only a token that was current during the call, sends at most three writes, each a creation that filled a gap, reports corruption without writing over it, and gives up only over corruption, a failed command, or a token that was missing three times and present in between and afterwards |
| GenerationStore.GetGenerations | src/nova/cache/backends/memcached.py:156-183 | it answers exactly the requested scopes, each with a token that was current during the call; it writes only creations, at most three for each distinct scope; it fails only for the reasons of one scope or over a malformed batch, and then without a write |
| GenerationStore.AcceptBatch | src/nova/cache/backends/redis.py:134-139 | a batch is accepted if and only if every present value is a valid token, and then yields exactly those tokens |
| GenerationStore.EachGeneration | src/nova/cache/backends/redis.py:140-145 | the scopes missing from a batch are filled one by one and the batch's tokens are kept |
| GenerationStore.RotateGeneration | src/nova/cache/backends/redis.py:151-168 | one write; it succeeds if and only if the write was acknowledged, and the returned token was then installed during the call |
| GenerationTransport.Write | src/nova/cache/generation_transport.py:29-58 | pinned or pooled, on every path at most one command is sent, exactly one before an answer. `True` means that the caller's token is stored, whatever was there for a rotation and where nothing was for a creation; a creation never replaces a value, and `False` means that it found one; it raises if and only if something failed. The lock or the connection is given back, and the connection is closed if anything went wrong |
| GenerationTransport.Attempt | src/nova/cache/generation_transport.py:39-46 | the same for one command and its reply, on one connection |
| GenerationTransport.WriteMemcached | src/nova/cache/generation_transport.py:67-74 | one `add` or `set`: it stores, declines and fails under the same conditions as the Redis writer, so both do what `GenerationStore.Store.Write` states |
| ScopeNames.ScopesAreDistinct | src/nova/cache/generation.py:48-50 | two scopes have the same text only if model and database are the same, whatever characters they contain |
| ScopeNames.CodeIsRead | src/nova/cache/generation.py:48-50 | a reader of JSON strings (section 7 of RFC 8259) reads every escaped character back as itself, surrogate pairs included, and stops where it ends |
| ScopeNames.ScopeIsRead | src/nova/cache/generation.py:48-50 | read as JSON, a scope text is the array of exactly this model and this database, whatever characters they contain |
| ScopeNames.ScopeIsAscii | src/nova/cache/generation.py:48-50 | a scope text is printable ASCII, whatever the names are |
| ModelNames.SignalsFindQueries | src/nova/cache/queryset_cache.py:171-214 | in whatever case a model is named, and whatever the app labels, the names an invalidation reaches and those a query is indexed under meet if and only if the short model names are the same but for capitals |
| ModelNames.SignalsRotateScopes | src/nova/cache/queryset_cache.py:151-168 | the scope that is rotated, in whatever case the model was named, is among the scopes of every query on the model, on its database as on all |
| ModelNames.ShortNameOfSignal | src/nova/cache/queryset_cache.py:151-192 | whatever the app label and the case, the short name is the lowered part after the last dot, and every other name in the target ends in it |
| ModelNames.LowerIgnoresCase | src/nova/cache/queryset_cache.py:161-161 | two texts are lowered to the same if and only if they differ at most in capitals |
| ModelNames.OnlyBlanksReachNothing | src/nova/cache/queryset_cache.py:181-192 | a target reaches nothing if and only if it is blank, and the empty name is never among those reached |
| ModelNames.FullNamesAreDistinct | src/nova/cache/queryset_cache.py:194-214 | two models have one full name only if app label and model name agree |
| ModelNames.BlanksAreIgnored | src/nova/cache/queryset_cache.py:161-192 | blanks around a name change neither its short name nor the names it reaches |
| RelationGraph.RelatedModelGraph | src/nova/cache/dependencies.py:37-63 | the worklist terminates and returns exactly the models reachable by relations and through models, and exactly the through models among their relations |
| RelationGraph.ThroughsAreConnected | src/nova/cache/dependencies.py:59-63 | every through model it reports is among the models it reports |
| RelationGraph.PrefetchDependencies | src/nova/cache/dependencies.py:151-169 | a query is accepted if and only if every lookup crosses a path of relations in which each part stands for a relation of the model reached so far, with an ordinary target and no unresolved through model; the models collected are exactly its own and, of every relation crossed, the target and the through model |
| RelationGraph.CrossesOnce | src/nova/cache/dependencies.py:157-169 | a lookup crosses its parts in at most one way |
| RelationGraph.PathStaysConnected | src/nova/cache/dependencies.py:157-169 | every model that a prefetch path adds is connected to the model it starts from, and its through models are among the reported ones |
| RelationGraph.Subscriptions.Connect | src/nova/cache/invalidation.py:30-112 | afterwards everything connected to the model is subscribed with the cache, also after the early return; no receiver is connected twice and no subscription is lost |
| RelationGraph.DependenciesAreSubscribed | src/nova/cache/invalidation.py:54-110 | every model that a prefetch adds to a query is subscribed with the same cache, and every through model it crosses is subscribed for changes of the relation |
| RelationGraph.RelationField | src/nova/cache/dependencies.py:78-88 | it finds what a part of a lookup stands for: the first field of that name or else the first visible reverse accessor of that name; it fails if and only if the part stands for nothing |
| Glob.EscapedIsLiteral | src/nova/cache/backends/redis.py:248-250 | an escaped text matches itself and nothing else, whatever pattern follows |
| Glob.PatternIsNamespace | src/nova/cache/backends/redis.py:246-251 | for every prefix, the pattern of `clear` matches a key if and only if the key starts with the literal prefix and a colon |
| Glob.OwnKeysMatch | src/nova/cache/backends/redis.py:92-96 | every key a prefixed backend writes, results and tokens alike, matches its own pattern |
| Glob.StoredKeysAreDistinct | src/nova/cache/backends/redis.py:92-96 | a backend stores different keys under different names, and without a prefix as they are |
| Glob.OtherBackendsAreSafe | src/nova/cache/backends/redis.py:241-251 | a clear can reach no key of another prefix if and only if neither prefix with its colon begins the other |
| Glob.WildcardsNeedEscaping | src/nova/cache/backends/redis.py:246-250 | a `*` or `?` left bare anywhere in an otherwise plain prefix makes the pattern match a key outside the namespace |
| RedisClear.Clear | src/nova/cache/backends/redis.py:241-274 | with other clients active, the SCAN loop deletes only keys of its namespace, and when it completes every key left there was added by others meanwhile; it completes unless a command fails or a reply is short, and refuses an empty prefix; a failed command is an error, a short reply is not |
| LruStore.AfterNewest | src/nova/cache/backends/memory.py:104-105 | eviction spares an entry that fewer than `maxsize` entries follow, and keeps what follows it |
| MemoryCache.MemoryCacheBackend.Get | src/nova/cache/backends/memory.py:69-83 | a live entry is returned and becomes the most recent, an expired one is removed, and an absent one changes nothing |
| MemoryCache.MemoryCacheBackend.Set | src/nova/cache/backends/memory.py:85-105 | with room for an entry, a lookup of the key answers the value before the lifetime given, or the default lifetime if none was given, has passed since the store, and nothing from then on; a lifetime that is not positive removes the key; other entries only ever leave; a negative `maxsize` empties the store and raises `KeyError` |
| MemoryCache.MemoryCacheBackend.Delete | src/nova/cache/backends/memory.py:107-119 | the key is gone, and the answer says whether it was live |
| MemoryCache.MemoryCacheBackend.PurgeExpired | src/nova/cache/backends/memory.py:61-67 | deleting the collected keys one by one leaves exactly the unexpired entries, in order |
| MemoryCache.WithoutExpired | src/nova/cache/backends/memory.py:61-67 | removing the expired keys in turn is filtering by expiry |
| MemoryHistory.StaysValid | src/nova/cache/backends/memory.py:61-123 | over every history keys are distinct and the size is within `maxsize` |
| MemoryHistory.AnswersAreCurrent | src/nova/cache/backends/memory.py:69-83 | any answer but the default is the value of the last `set` of the key, not deleted or cleared since and before its deadline |
| MemoryHistory.LruGuarantee | src/nova/cache/backends/memory.py:69-105 | if the last `set` is unexpired and was not undone, and fewer than `maxsize` distinct other keys were set or hit since the key was last set or hit, `get` returns that value |
| TaskQueue.StepInv | src/nova/tasks/backends/asyncio_backend.py:47-169 | every stretch between awaits keeps: the counter is queued plus held items, each item is in one place, each task is finished or has exactly one item |
| TaskQueue.RunInv | src/nova/tasks/backends/asyncio_backend.py:47-169 | the same in every reachable state |
| TaskQueue.JoinMeansDone | src/nova/tasks/backends/asyncio_backend.py:121-133 | when the counter that `join` waits for is zero, every task submitted so far succeeded or failed, with attempts equal to its runs, within its limit; a failure has used every retry; and its result reports exactly how its attempts ended |
| TaskQueue.ResultsReport | src/nova/tasks/backends/asyncio_backend.py:61-103 | over every run, with the outcomes read off the events: all attempts but the last raised; a task is a success if and only if its last attempt returned, with that value; it is failed if and only if as many attempts as its retries allow, and one more, have ended and all raised; the error is that of the last attempt that raised, with its number unless it was final |
| TaskQueue.GetResultIsReturned | src/nova/tasks/backends/asyncio_backend.py:174-178 | `get_result` answers a value if and only if the last attempt returned that value |
| TaskQueue.LimitsAreSubmitted | src/nova/tasks/backends/asyncio_backend.py:135-169 | the retries a task is judged by are those it was submitted with |
| TaskQueue.ItemsAreSubmitted | src/nova/tasks/backends/asyncio_backend.py:135-169 | every item in the queue or with a worker carries the delay and the retries of its submission |
| TaskQueue.DelaysAreHonoured | src/nova/tasks/backends/asyncio_backend.py:49-53 | over every run, a task submitted with a delay waits before its first attempt and before no other, and a task without one never waits |
| TaskQueue.TakenInTurn | src/nova/tasks/backends/asyncio_backend.py:47-49 | over every run, items are taken in the order in which they were queued: whatever is queued meanwhile, the item at place `j` goes to the worker of the take that `j` takes precede |
| TaskQueue.RunsAreBounded | src/nova/tasks/backends/asyncio_backend.py:69-103 | a task runs at most once more than it has retries, and a finished one exactly as often as its result says |
| TaskQueue.TerminalIsFinal | src/nova/tasks/backends/asyncio_backend.py:61-103 | a finished result never changes afterwards and its function is never started again |
| TaskQueue.WorkIsUsedUp | src/nova/tasks/backends/asyncio_backend.py:47-112 | every worker step that does anything lowers the remaining work; only a submission raises it, by its own cost |
| TaskQueue.RunsComeToRest | src/nova/tasks/backends/asyncio_backend.py:47-112 | under every schedule the worker steps of a run number at most four for each attempt paid for |
| TaskQueue.NeverStuck | src/nova/tasks/backends/asyncio_backend.py:47-112 | while the counter is not zero and there is a worker, some worker step is possible |
| TaskQueue.AsyncioBackend.SubmitTask | src/nova/tasks/backends/asyncio_backend.py:135-169 | the object's new state is the submission step |
| TaskQueue.AsyncioBackend.TakeItem | src/nova/tasks/backends/asyncio_backend.py:47-57 | the object's new state is the step that takes the first item, into a delay on its first attempt or into execution |
| TaskQueue.AsyncioBackend.WakeUp | src/nova/tasks/backends/asyncio_backend.py:52-57 | the object's new state is the step from the end of the delay into execution |
| TaskQueue.AsyncioBackend.FinishAttempt | src/nova/tasks/backends/asyncio_backend.py:63-112 | the object's new state is the finish step: success with the value returned, retry, or permanent failure; looking up the result and reporting the item done never fail |
| TaskQueue.AsyncioBackend.PutBackItem | src/nova/tasks/backends/asyncio_backend.py:87-112 | the object's new state is the step that queues the item again before reporting it done |
| RateLimiter.SortedSet.Check | src/nova/redis/rate_limiter.py:15-38 | one script call prunes, counts, decides, adds and expires as the value-level script does |
| RateLimiter.CountedExactly | src/nova/redis/rate_limiter.py:22-35 | for clocks of any kind, what the script counts are exactly the earlier admissions that no later stamp has pruned and no expiry has dropped |
| RateLimiter.CountsTheWindow | src/nova/redis/rate_limiter.py:22-26 | for clocks of any kind, the count is that of the window before the request if and only if no admission of that window was removed |
| RateLimiter.WrongDecision | src/nova/redis/rate_limiter.py:28-38 | for clocks of any kind, a decision differs from that of a complete log if and only if so many were removed from the window that what is left is below the limit and the window is not; it then admits |
| RateLimiter.SteadyExactly | src/nova/redis/rate_limiter.py:22-35 | the exact condition on clocks: a run is steady if and only if the script, serving any part of the run under any limit, counts at every request what a complete log would |
| RateLimiter.SteadyForMonotoneStamps | src/nova/redis/rate_limiter.py:22-35 | for stamps that never run backwards, steady means: any two requests less than a window apart by their stamps are less than a window apart on the server |
| RateLimiter.OneClockIsSteady | src/nova/redis/rate_limiter.py:33-34 | one clock that never runs backwards is steady for every window |
| RateLimiter.DecisionsExactly | src/nova/redis/rate_limiter.py:28-38 | if the stamps, or the server's clock, never run backwards, the script decides every part of the run under every limit as a log of all admissions does, if and only if the clocks are steady |
| RateLimiter.SameDecisions | src/nova/redis/rate_limiter.py:22-38 | on steady clocks, the pruned and expiring set decides every request as a log of all admissions would |
| RateLimiter.NeverOverLimit | src/nova/redis/rate_limiter.py:28-38 | on steady clocks, no window `[t, t + window)`, wherever it begins, holds more than `limit` admitted requests |
| RateLimiter.BoundForMonotoneStamps | src/nova/redis/rate_limiter.py:22-38 | for stamps that never run backwards, the bound holds over every part of the run, every limit and every window if and only if the clocks are steady |
| RateLimiter.OrderlyKeepsBound | src/nova/redis/rate_limiter.py:22-38 | for stamps of any kind and a server clock that never runs backwards, on orderly clocks the admissions before any request keep the bound in every window |
| RateLimiter.BoundExactly | src/nova/redis/rate_limiter.py:22-38 | the exact condition for stamps of any kind and a server clock that never runs backwards: the bound holds over every part of the run, every limit and every window if and only if no two requests close by their stamps are a window apart on the server and no two are overtaken together |
| RateLimiter.SteadyIsOrderly | src/nova/redis/rate_limiter.py:22-35 | steady clocks meet that condition |
| RateLimiter.OrderlyNotSteady | src/nova/redis/rate_limiter.py:22-23 | a run that meets it and is not steady: a single request overtaken by a stamp that runs ahead once |
| RateLimiter.RejectedWhenFull | src/nova/redis/rate_limiter.py:25-37 | on steady clocks, and with no later stamp before it, a request is rejected if and only if the window that ends at it holds exactly `limit` admissions |
| RateLimiter.ClockStepsBack | src/nova/redis/rate_limiter.py:22-23 | a run that is neither steady nor orderly: a stamp runs ahead of two requests and the clock steps back, and limit 2 and window 10 admit three requests within one window |
| RateLimiter.KeyExpiresTooEarly | src/nova/redis/rate_limiter.py:33-34 | a run that is not steady though neither clock runs backwards: with limit 1 and window 10, the key expires between two requests stamped 5 apart, and both are admitted |
| LockProtocol.OnlyItsOwner | src/nova/redis/locks.py:18-24 | a live lease is unchanged by every step but the passing of time and an unlock script of its own object, however late any command runs |
| LockProtocol.LeaseLasts | src/nova/redis/locks.py:18-24 | over every run, a lease keeps its full time whatever the other objects send and however late it runs, unless an unlock script of its own object runs |
| LockProtocol.MutualExclusion | src/nova/redis/locks.py:68-99 | over every run, two objects that count on unexpired leases and had no release given up on are the same object, and the server holds that lease |
| LockProtocol.OnlyOwnScriptsBreak | src/nova/redis/locks.py:91-99 | without that condition, one of two such objects was unlocked by a script of its own after its grant |
| LockProtocol.ExclusionExactly | src/nova/redis/locks.py:68-99 | the exact condition: from a reachable state, as long as neither of two objects gives up a release from then on, they can never both hold the lock if and only if no release of either was given up on before |
| LockProtocol.AbandonedBreaksExclusion | src/nova/redis/locks.py:91-99 | from every state in which a release of an object was given up on, some continuation lets it and any other object hold the lock together |
| LockProtocol.LateReleaseBreaksExclusion | src/nova/redis/locks.py:91-99 | a reachable state in which a late unlock script of a reused object let a second object in |
| LockProtocol.ReacquireForgets | src/nova/redis/locks.py:73-86 | acquiring a lease the object already holds clears its flag, keeps the lease, and makes the following release a no-op |
| LockProtocol.AcquireDecides | src/nova/redis/locks.py:68-89 | from any state, one undisturbed try takes a free key for exactly the lease time asked for, leaves a live lease alone, raises for a lease time that is not positive, and changes no other object |
| LockProtocol.ReleaseFrees | src/nova/redis/locks.py:18-24 | an undisturbed release clears the flag and frees the key unless another object's lease is on it, which it leaves |
| LockProtocol.HandsOver | src/nova/redis/locks.py:68-99 | once its holder has released the lock, any other object acquires it with its first try |
| LockObjects.AsyncDistributedLock.Acquire | src/nova/redis/locks.py:68-89 | success means that the last try found the key free and was granted a full lease; failure means that the last try found a live lease and its answer came at or after the deadline; it raises exactly for a lease time that is not positive, leaving flag and key alone; the loop terminates |
| LockObjects.AsyncDistributedLock.Release | src/nova/redis/locks.py:91-99 | nothing is sent without the flag; otherwise the key ends as the unlock script leaves what it finds: this object's live lease is removed, a live lease of any other object is untouched, and the flag is clear |
| GraphAnalysis.FinishingOrder | scripts/summarize_serializer_gc.py:189-200 | every node finishes exactly once, and a node that reaches something finishing later has a mate in its own component that finishes later |
| GraphAnalysis.LastMate | scripts/summarize_serializer_gc.py:189-200 | of a component's nodes the last to finish finishes after everything it reaches |
| GraphAnalysis.Collect | scripts/summarize_serializer_gc.py:205-212 | the backward search from a root collects exactly its strongly connected component |
| GraphAnalysis.CycleComponents | scripts/summarize_serializer_gc.py:201-214 | the second pass yields exactly the strongly connected components and keeps exactly the cyclic ones |
| GraphAnalysis.CyclicTest | scripts/summarize_serializer_gc.py:213-214 | a component passes the size or self-loop test if and only if its nodes lie on non-empty closed paths |
| GraphAnalysis.Closure | scripts/summarize_serializer_gc.py:217-222 | the last search returns exactly what the start set reaches |
| GraphAnalysis.CountComponents | scripts/summarize_serializer_gc.py:201-216 | the components counted are as many as there are components of cyclic nodes |
| GraphAnalysis.AnalyzeGraph | scripts/summarize_serializer_gc.py:177-222 | cyclic nodes are exactly those on a non-empty closed path, reachable ones their forward closure, and duplicates and dangling edges are refused; all loops terminate |
| Intervals.MergeIntervals | benchmarks/workload_diagnostics.py:22-32 | the result is sorted, gap-separated, without empty intervals, and covers exactly the input's points |
| Intervals.MergedUnique | benchmarks/workload_diagnostics.py:22-32 | two such forms of the same points are equal, so the result is the only one |
| Intervals.IntervalNs | benchmarks/workload_diagnostics.py:35-36 | the number of points covered, however often |
| Intervals.IntersectIntervals | benchmarks/workload_diagnostics.py:39-51 | the loop over both lists returns that form for exactly the common points |
| GcSummary.OverlapCounts | scripts/summarize_serializer_gc.py:24-26 | for windows that do not overlap, the unmerged sum is the measure of the common points |
| GcSummary.CheckWindows | scripts/summarize_serializer_gc.py:29-33 | it accepts exactly the windows in order within the bounds |
| GcSummary.PartitionExact | scripts/summarize_serializer_gc.py:73-83 | call, validation and other time are the sizes of three disjoint parts of a collection's window |
| GcSummary.SummarizeGeneration | scripts/summarize_serializer_gc.py:61-87 | the totals of one generation are those parts of its collections' time, and only a negative count is a problem |
| GcSummary.SummarizeScope | scripts/summarize_serializer_gc.py:36-88 | a report is accepted if and only if it passes the other checks, the double-count guard never fires, and each generation's three times add up to its duration; a rejection names a defect that the report has |
| GcSummary.RecordedOverlap | benchmarks/serializer_environment.py:119-123 | the recorder's merged overlap equals the analyser's unmerged sum whenever the window check passes |
| Accounting.Annotate | benchmarks/workload_diagnostics.py:249-331 | every figure of every operation is the size of the set of instants it stands for, for arbitrary nested spans and collections |
| Accounting.AnnotateOne | benchmarks/workload_diagnostics.py:278-330 | the same for one operation; both of the recorder's assertions hold |
| Accounting.TimeIsConserved | benchmarks/workload_diagnostics.py:296-330 | collection and leaf time lie within elapsed time, and other + leaf + collection - their common part is elapsed |
| Accounting.SharesAgainstUnion | benchmarks/workload_diagnostics.py:281-296 | the listed shares add up to at least the collection time, and to exactly that if and only if no two collections coincide within the operation |
| Accounting.LeafTimeMeans | benchmarks/workload_diagnostics.py:306-314 | an instant is leaf time if and only if a span of this operation in a leaf phase covers it |
| Paths.MeaningIsPreserved | src/nova/query/planner.py:128-147 | the output establishes exactly the relation paths that the input establishes |
| Paths.OutputIsMaximal | src/nova/query/planner.py:141-147 | the output is strictly sorted and holds exactly the input paths that no input path extends |
| Paths.NothingIsRedundant | src/nova/query/planner.py:143-147 | every output path establishes something that the rest of the output does not |
| Paths.Idempotent | src/nova/query/planner.py:128-147 | applying it twice changes nothing |
| Paths.ExtendsMeansPrefix | src/nova/query/planner.py:146-146 | on joined field names, the string test holds exactly for a proper prefix of relations |

## Left out

- Pickling, `snapshot_rows` and SQL compilation: rows are known by the versions they read, queries by an opaque identity. A snapshot or write that fails without raising is a publish that was not acknowledged.
- Reads inside transactions: they bypass the cache before any section that is modelled.
- The window between a commit and its rotation: staleness there is permitted, so nothing is claimed about it.
- Result lifetimes: expiry of a stored result is an eviction.
- TaskQueue.JoinMeansDone: says nothing of submissions made after the counter reached zero and before the workers are cancelled.
- Restarting a stopped task backend, and task functions that raise cancellation.
- RelationGraph.RelatedModelGraph: the models that ordinary SQL joins add to a query come from Django's compiler and are not shown to be connected.
- GenerationStore.GetGeneration: tokens are kept under their scope; the digest in the stored key is taken to be injective.
- Glob.PatternIsNamespace: keys are texts; the server compares their encoded bytes.
- ModelNames.SignalsFindQueries: letters outside ASCII are not lowered.
- Bulk operations of the memory backend, `collection_summary`, latency percentiles and the pattern listing of the graph report: loops over what is modelled, or printing.
- `_calculate_deferred_fields` and nested prefetch paths of the planner.
- RateLimiter.BoundExactly: takes the server's clock not to run backwards; for a server clock that steps back, the bound is shown on steady clocks (`RateLimiter.NeverOverLimit`) and where it fails is not described exactly.
- Replica routing, tracing, logging, metrics, pub/sub, health checks and the framework adapters.
