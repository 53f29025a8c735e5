# Sunny: a verified model of its stateful components

Sunny is a Gin-based service framework in Go. This project models the components that carry real state machines and
proves what their callers rely on. `dafny verify dfyconfig.toml` checks everything (Dafny 4.11).

Protocols with several goroutines, processes or brokers are state machines over atomic steps: a state, an `Action`
datatype, `Enabled`, `Apply`, and runs as sequences of actions. Their theorems quantify over every run. Objects whose
methods change fields are classes whose methods are proved against functions on values, and the theorems are about
those functions. Clocks, random values, answers of brokers and servers, file system faults and crashes are parameters.

| file | component |
|---|---|
| `LockTable.dfy`, `KeyedLocks.dfy` | the reference-counted table of mutexes: its operations on objects, and any number of callers interleaved |
| `Lease.dfy` | the Redis lease lock, with expiry, lost replies, and late, repeated and lost releases |
| `FailedMessages.dfy` | memory store, `Publish` and one resend pass of the Kafka manager, run by one thread |
| `Outbox.dfy`, `OutboxPass.dfy` | the same outbox with concurrent publishers, for Kafka and RabbitMQ, and its agreement with the single-threaded one |
| `FileStore.dfy` | the file store, byte by byte, with crashes |
| `ChannelPool.dfy` | the AMQP channel pool and its borrowers |
| `LocalCache.dfy`, `CacheLifetimes.dfy` | the TTL cache used by one goroutine, and how long its entries live |
| `SingleFlight.dfy`, `GetCourse.dfy`, `Invalidation.dfy` | the concurrent load protocol, the course of each `Get`, and what pending `Get`s do to a `Delete` or `Set` |
| `SigningString.dfy`, `KeyRing.dfy` | the canonical string that is signed, and the nine-slot key ring with its replicas |
| `Aes.dfy` | padding (section 6.3 of RFC 5652), ECB and CBC (sections 6.1 and 6.2 of NIST SP 800-38A) around an abstract block permutation |
| `Dispatch.dfy` | handler registration and the abortable pipeline of a request |
| `Tasks.dfy` | the task scheduler with single flag accesses as steps |
| `Sequences.dfy` | wrapping fixed-width IDs, local and in Redis |
| `Strings.dfy`, `Sets.dfy`, `Division.dfy`, `Wrappers.dfy` | shared definitions |

Where a promise fails, the model follows the code, shows the failure on a concrete run or input, and proves the exact
condition under which the promise holds:

- The lock table counts callers in an `int32`. Exclusion holds up to 2^31 callers of one key and fails at one more
  (`KeyedLocks.ReleaseKeepsInvIff`, `KeyedLocks.ExclusionFailsPastInt32`).
- The Redis lock's prefix is documented as keeping business areas apart. It does so unless one prefix, with its colon,
  starts another (`Strings.HeadsCollideIff`).
- RabbitMQ's `Publish` reports an error without storing the message when the pool has no channel, and then the message
  is never sent (`Outbox.PoolFailureLosesIff`). A stored message survives as long as fewer of its resends than the retry
  limit got no channel, and that bound is tight (`Outbox.StarvationLosesIff`).
- The canonical string of a map is shared with another map unless the map is empty or has a single entry without `=` in
  key and value (`SigningString.CanonicalIsAmbiguousIff`). Among maps whose keys have no `=` or `&` and whose values have
  no `&` it tells maps apart (`SigningString.CanonicalIsInjective`).
- CBC decryption does not check padding (`Aes.CbcAcceptedReencryptsIff`, `Aes.CbcAcceptsUnpadded`), and padding to blocks
  above 255 bytes does not round-trip (`Aes.UnPadUndoesPadIff`).
- A route is found under its own path only if that is a slash and one segment (`Dispatch.FindsOwnPathIff`), and a colon in
  a role label or group parameter can take a request to a group of another role (`Dispatch.RolesShareGroupsIff`).
- A ring of different keys restored from them in issuing order is wrong once it has wrapped, unless it has just completed
  a turn (`KeyRing.RestartFromOldestIff`), and a replica that gets updates out of order can diverge once two of them put
  different keys into one slot (`KeyRing.ReplicaDivergesIff`).
- A value deleted from the cache can still be returned to a later `Get` if, at the `Delete`, a load of its key was being
  finished (`Invalidation.DeleteIsFinalIff`). A value just set can vanish if a `Get` was about to delete a stale one
  (`Invalidation.SetVanishesIff`).
- A failed resend raises the old ID's count and stores a fresh copy: the retry limit is per ID, a pass doubles the
  failures, and no payload of Kafka is ever given up (`FailedMessages.PassDoublesTheFailures`, `Outbox.KafkaLosesNothing`).
- A paused or removed task can start once more, exactly when the tick had already come far enough with it
  (`Tasks.PausedStartIff`, `Tasks.RemovedStartIff`). A removed one can run beside a successor of the same ID exactly when
  it is running or can still start (`Tasks.OverlapIff`).
- A Redis counter that holds text or the largest 64-bit integer refuses every call, and far below zero Lua rounds what it
  returns (`Sequences.LockstepIff`).

## Model

| member | source | states |
|---|---|---|
| `LockTable.Wrap32` | components/limits/limit.go:28-32 | the count is the int32 that Go stores: unchanged in range, wrapped into it otherwise |
| `LockTable.Wrap32Absorbs` | components/limits/limit.go:56-82 | incrementing and decrementing with wrap-around at every step is wrapping the true count once |
| `LockTable.ReleaseUndoesGetIff` | components/limits/limit.go:52-85 | releasing right after getting restores the whole table, also across the int32 boundary, iff the key had no row or a positive count; a row with a wrapped count is deleted |
| `LockTable.UniLimiterLocker.GetMutex` | components/limits/limit.go:52-69 | an existing row keeps its mutex and gains one count, otherwise a row with a new unlocked mutex and count 1 appears; all other rows stay |
| `LockTable.UniLimiterLocker.ReleaseMutex` | components/limits/limit.go:74-85 | the row found by key loses one count and goes exactly when that leaves it non-positive; an absent key changes nothing |
| `LockTable.UniLimiterLocker.DoWithTryLock` | components/limits/limit.go:95-114 | fn runs iff the mutex of the key is free, else the answer is lock busy; mutexes end as they began, and so do rows, except that a row whose count had wrapped goes |
| `KeyedLocks.ReleaseKeepsInvIff` | components/limits/limit.go:74-85 | a release keeps the whole invariant (counts, pointers, owners) iff the caller is the last one or the wrapped count stays positive |
| `KeyedLocks.StepKeepsInv` | components/limits/limit.go:52-136 | every atomic step of every caller keeps: count of a key = callers between get and release, their mutex is the one in the table, mutexes differ between keys, owners are exactly the callers inside fn |
| `KeyedLocks.RunKeepsInv` | components/limits/limit.go:52-136 | that invariant holds after every run in which no key has more than 2^31 callers at once |
| `KeyedLocks.MutualExclusion` | components/limits/limit.go:95-136 | in every interleaving all callers of a key share one mutex and at most one is inside fn |
| `KeyedLocks.RowsAreTheActiveKeys` | components/limits/limit.go:74-85 | the table has a row exactly for the keys with callers: with no callers it is empty |
| `KeyedLocks.StepRefinesIdealLock` | components/limits/limit.go:52-136 | each step does to the ideal per-key lock just what its name says: grants it only when free, refuses only while another caller has it, gives it back only by its holder, otherwise nothing |
| `KeyedLocks.RefusedOnlyWhenBusy` | components/limits/limit.go:98-102 | lock busy is answered only while another caller of the same key is inside fn |
| `KeyedLocks.Progress` | components/limits/limit.go:95-136 | while a caller is pending, some caller of its own key can step |
| `KeyedLocks.CallsRunFnOrAreRefused` | components/limits/limit.go:95-136 | over every run each call that has returned ran fn exactly once, between Lock and Unlock, or was a try that was refused and ran nothing |
| `KeyedLocks.WaitersAlwaysRunFn` | components/limits/limit.go:124-136 | a waiting call is never refused and returns only after it ran fn |
| `KeyedLocks.RefusedIffTrying` | components/limits/limit.go:95-103 | at the lock, a call can come to be refused iff it does not wait |
| `KeyedLocks.CrowdIsReachable` | components/limits/limit.go:95-103 | any number of callers of one key can be pending at once |
| `KeyedLocks.ExclusionFailsPastInt32` | components/limits/limit.go:30-32 | with 2^31 + 1 callers on one key a refused caller deletes the row in use and two callers are inside fn |
| `Lease.EffectiveTTL` | components/limits/limit.go:153-165 | the lifetime is the one asked for when positive and 30 seconds otherwise |
| `Strings.HeadsCollideIff` | components/limits/limit.go:182-184 | two prefixes can lock the same Redis key, as two role labels can share a group key, iff one, with its colon, starts the other |
| `Lease.RedisLimiterLocker.constructor` | components/limits/limit.go:153-165 | defaults for a non-positive lifetime and an empty prefix |
| `Lease.RedisLimiterLocker.DoWithTryLock` | components/limits/limit.go:212-246 | one call against the server: an error answer runs nothing but may leave a lease; a live lease refuses and stays; otherwise fn runs and the key ends free, or holding exactly this lease when the release is lost |
| `Lease.WaitForLock` | components/limits/limit.go:256-286 | the retry loop stops at the first attempt that is free, failed or cancelled, with the rows it leaves: untouched before, taken with the full lifetime on success, and after fn released only if still its own |
| `Lease.StepKeepsInv` | components/limits/limit.go:212-286 | every step keeps: values in use are unique, and a call in time owns the stored row with its own expiry |
| `Lease.RunKeepsInv` | components/limits/limit.go:212-286 | so does every run with fresh lock values, through lost replies, late, repeated and lost releases, expiry and clock steps |
| `Lease.OneUnexpiredHolder` | components/limits/limit.go:212-286 | at most one call per key has an unexpired lease, and Redis still stores its value |
| `Lease.OverlapMeansOverstay` | components/limits/limit.go:212-286 | two calls inside fn for one key mean that one outstayed its lease |
| `Lease.PromptCallsExclude` | components/limits/limit.go:212-286 | if every fn ends within its lease, exclusion is unconditional |
| `Lease.LateReleaseIsHarmless` | components/limits/limit.go:237-246 | a release at any time leaves the row of every other call in time as it is |
| `Lease.CallLeavesIff` | components/limits/limit.go:212-286 | a call leaves iff it is over, gave up after an error, was cancelled while waiting, or tried and found the row busy |
| `Lease.CallRunsFnIff` | components/limits/limit.go:212-286 | a call is inside fn exactly from taking a free row until fn ends |
| `Lease.FreeOrBusy` | components/limits/limit.go:212-286 | at the row exactly one of taking it and being refused is possible, and which one is decided by the stored expiry |
| `Lease.RowsChangeOnlySo` | components/limits/limit.go:212-246 | what each step does to each row: written with value and lifetime when free, removed by its own live value, and otherwise untouched |
| `Lease.CallsKeepTheirTerms` | components/limits/limit.go:194-209 | a call keeps the key, value, lifetime and way of locking it was started with |
| `Lease.OverstayAdmitsTwo` | components/limits/limit.go:212-230 | one fn slower than its lease is enough for two callers inside fn |
| `Lease.SharedValueAdmitsTwo` | components/limits/limit.go:198-209 | why the value must be unique: with a shared value two calls are inside fn, both in time |
| `FailedMessages.EffectiveRetries` | components/mqs/kafka.go:168-170 | the retry limit is the one asked for when positive and 3 otherwise |
| `FailedMessages.PassOutcome` | components/mqs/kafka.go:518-540 | after any prefix of a pass: which old messages are left and how counted, which fresh copies exist under which names, and what the broker accepted in order |
| `FailedMessages.PassDoublesTheFailures` | components/mqs/kafka.go:518-540 | a pass ends with exactly the failed messages counted up by one and one fresh count-0 copy of each: twice the failures |
| `FailedMessages.AcceptedPassEmptiesStore` | components/mqs/kafka.go:518-540 | when every resend is accepted the store ends empty and every message below the limit reached the broker |
| `FailedMessages.OrderOnlyRenames` | components/mqs/kafka.go:518-540 | for any two retrieval orders there is a one-to-one renaming of the fresh copies that turns one resulting store into the other |
| `FailedMessages.MemoryFailedMessageStore.Store` | components/mqs/memory_store.go:28-34 | the message replaces what its ID held, all else stays |
| `FailedMessages.MemoryFailedMessageStore.Retrieve` | components/mqs/memory_store.go:40-50 | lists every stored message exactly once, in some order |
| `FailedMessages.MemoryFailedMessageStore.Remove` | components/mqs/memory_store.go:57-63 | exactly the named message goes |
| `FailedMessages.KafkaManager.constructor` | components/mqs/kafka.go:165-187 | a manager starts disconnected, with the effective retry limit |
| `FailedMessages.KafkaManager.Publish` | components/mqs/kafka.go:366-411 | success iff connected and accepted; otherwise exactly one fresh count-0 copy is stored |
| `FailedMessages.KafkaManager.Resend` | components/mqs/kafka.go:526-539 | one message: abandoned at the limit, removed when accepted, else a fresh copy and then the old ID counted up |
| `FailedMessages.KafkaManager.ResendList` | components/mqs/kafka.go:525-540 | the loop over a retrieved list does to store, names and broker what the specification of a pass says |
| `FailedMessages.KafkaManager.ResendPass` | components/mqs/kafka.go:513-540 | one tick is such a pass over some listing of the store, and does nothing while disconnected |
| `Outbox.StepKeepsConsistent` | components/mqs/kafka.go:505-543 | with publishers storing meanwhile, what is left of the retrieved list still agrees with the store |
| `Outbox.RunKeepsCounted` | components/mqs/kafka.go:505-543 | over every run the stored count of an ID is the number of its resends, bar the one under way, and never above the limit |
| `Outbox.RetriesAreBounded` | components/mqs/rabbitmq.go:646-684 | over every run, with either broker, an ID is resent at most MaxRetries times and its count never exceeds MaxRetries |
| `Outbox.AcceptedOnce` | components/mqs/kafka.go:526-539 | over every run, beside any publishers, the broker accepts each stored ID at most once; once the loop has moved on an accepted ID is gone and is never sent again |
| `Outbox.LoopCanStep` | components/mqs/kafka.go:513-540 | in every reachable state the loop has a step to take |
| `OutboxPass.UndisturbedPass` | components/mqs/kafka.go:513-540 | a pass of the interleaved loop during which nobody publishes does to store, IDs and broker what the single-threaded pass does |
| `OutboxPass.UndisturbedAccepted` | components/mqs/kafka.go:366-411 | a publish by itself that is accepted, or gets no channel, does what the single-threaded one does |
| `OutboxPass.UndisturbedRefused` | components/mqs/kafka.go:366-411 | likewise one that is refused and stores its copy |
| `Outbox.StepKeepsSafe` | components/mqs/kafka.go:518-540 | a payload that is delivered, or stored with a count of at most its resends without a channel, stays so through every step, as long as those are fewer than the limit |
| `Outbox.StepKeepsNoLoss` | components/mqs/kafka.go:366-411 | so no step loses a payload whose failed publish stored a copy |
| `Outbox.RunKeepsNoLoss` | components/mqs/rabbitmq.go:493-554 | nor does any run, of either broker |
| `Outbox.KafkaLosesNothing` | components/mqs/kafka.go:366-411 | in every reachable state each payload whose Publish failed is delivered or stored as a copy with count 0 |
| `Outbox.StepKeepsAway` | components/mqs/rabbitmq.go:517-520 | nothing but a publish of its own brings a payload to store or broker |
| `Outbox.PoolFailureLosesIff` | components/mqs/rabbitmq.go:493-554 | over every run with distinct publishes: a payload whose publish got no channel is never delivered or stored; with fewer resends without a channel than the limit, a failed payload is delivered or stored iff its publish did not lack a channel |
| `Outbox.LosesEarlyIff` | components/mqs/rabbitmq.go:517-520 | a failed payload can be lost with fewer such resends than the limit iff the broker is RabbitMQ |
| `Outbox.PoolFailuresAbandonPayload` | components/mqs/rabbitmq.go:664-681 | for every limit and payload, a run in which that many resends without a channel abandon the stored payload with nothing in its place |
| `Outbox.StarvationLosesIff` | components/mqs/rabbitmq.go:664-681 | so the bound is tight: with up to that many resends without a channel, a stored payload can be lost iff there are exactly that many |
| `FileStore.SaveIsAtomic` | components/mqs/file_store.go:198-221 | wherever a save fails or the process stops, the main file is byte for byte the old one or the new one, and the new one iff the rename was done |
| `FileStore.CallRefinesMemory` | components/mqs/file_store.go:55-137 | a call moves what the file means as the memory store would, or not at all |
| `FileStore.FileRefinesMemory` | components/mqs/file_store.go:55-137 | after any sequence of calls with failures and crashes anywhere the file reads as a memory store that did exactly the committed calls |
| `FileStore.FileHoldsLastWord` | components/mqs/file_store.go:55-137 | over any such sequence the file holds under each ID the message of the last committed Store of it, unless a committed Remove of it or a Clear came later |
| `FileStore.ReadingIsForgiving` | components/mqs/file_store.go:166-191 | missing and empty files and ones without messages read as no messages; only one that does not parse is an error |
| `FileStore.CommitsIff` | components/mqs/file_store.go:55-137 | a call that does not commit leaves the main file alone; an undisturbed one commits iff it could read, or clears |
| `FileStore.CompleteCallsAgree` | components/mqs/file_store.go:55-137 | without failures the two stores agree after every sequence |
| `FileStore.FailedMessageFile.NewStore` | components/mqs/file_store.go:29-48 | an existing file is taken as it is, a missing one is created empty; failing to make the directory or the file is an error |
| `FileStore.FailedMessageFile.LoadFromFile` | components/mqs/file_store.go:166-191 | missing, empty, unreadable and message-less files, each as the source treats it |
| `FileStore.FailedMessageFile.SaveToFile` | components/mqs/file_store.go:198-221 | the writing loop ends with the disk of the specification; success is reported iff everything went well |
| `FileStore.FailedMessageFile.Perform` | components/mqs/file_store.go:98-137 | Store, Remove and Clear: load, change, save; an error is reported for exactly the live calls that did not commit |
| `FileStore.FailedMessageFile.Retrieve` | components/mqs/file_store.go:80-96 | the message under each ID exactly once, or the error of reading |
| `ChannelPool.StepKeepsSane` | components/mqs/rabbitmq.go:83-152 | each pool operation keeps every opened channel in exactly one of idle, out, closed; at most maxSize idle; no send on the closed Go channel |
| `ChannelPool.ChannelsAreConserved` | components/mqs/rabbitmq.go:83-152 | over every run in which holders put back what they hold, that stays so and opened = idle + out + closed |
| `ChannelPool.ClosedPoolEndsShut` | components/mqs/rabbitmq.go:137-152 | once the pool is closed and everything put back, every channel ever opened is closed |
| `ChannelPool.PoolFillsUp` | components/mqs/rabbitmq.go:105-126 | after a burst of opened channels, those that come back are kept in order up to maxSize and closed from then on |
| `ChannelPool.OldestIdleFirst` | components/mqs/rabbitmq.go:83-100 | the channel idle longest goes out first, and none is opened while one is idle |
| `ChannelPool.Channels.Get` | components/mqs/rabbitmq.go:83-100 | an idle channel first, else a new one, else an error; a closed pool gives none |
| `ChannelPool.Channels.Put` | components/mqs/rabbitmq.go:105-126 | back to idle if there is room, else closed; nil is ignored |
| `ChannelPool.Channels.Close` | components/mqs/rabbitmq.go:137-152 | the drain closes exactly the idle channels, once |
| `ChannelPool.RabbitMqManager.constructor` | components/mqs/rabbitmq.go:266-291 | the pool size defaults to 10 when not positive |
| `ChannelPool.RabbitMqManager.Connect` | components/mqs/rabbitmq.go:324-364 | on every path the setup channel is idle again or closed, and only success connects |
| `ChannelPool.RabbitMqManager.Publish` | components/mqs/rabbitmq.go:493-554 | on every path nothing stays borrowed, also when the pool is closed meanwhile; a copy is stored when disconnected or when the send fails, and none without a channel |
| `LocalCache.StepsAgree` | components/caches/local.go:68-267 | each operation keeps cache and never-purging map in step and gets the same answer |
| `LocalCache.PurgingIsInvisible` | components/caches/local.go:68-267 | under a clock that does not run backwards every history gets the answers of a map that is never purged; Size is at least the number of live keys |
| `CacheLifetimes.AnswersFollowLifetimes` | components/caches/local.go:19-267 | under such a clock every answer is decided by the last write of the key and its time: found up to and including that time plus the lifetime, for ever without one, with the time that remains |
| `CacheLifetimes.ExpiredAreDeleted` | components/caches/local.go:68-267 | whoever finds an entry expired deletes it, and a cleanup leaves exactly those that last |
| `CacheLifetimes.SizeCountsWritten` | components/caches/local.go:209-216 | Size counts no key that was never written, or deleted since |
| `LocalCache.SizeCovers` | components/caches/local.go:209-216 | the cache holds at least the live keys |
| `LocalCache.Cache.GetKey` | components/caches/local.go:68-121 | hit, lazy deletion, missing loader, failed load, load and store |
| `LocalCache.Cache.SetKey` | components/caches/local.go:131-144 | the entry replaces the old one, with an expiry iff the lifetime is positive |
| `LocalCache.Cache.CleanAll` | components/caches/local.go:164-170 | the deleting loop leaves nothing |
| `LocalCache.Cache.CleanupExpired` | components/caches/local.go:190-198 | the cleanup loop deletes exactly the entries found expired at their own clock reading |
| `LocalCache.Cache.ExistsKey` | components/caches/local.go:234-244 | true iff live; an expired entry is deleted |
| `LocalCache.Cache.GetKeyWithTTL` | components/caches/local.go:247-267 | value and remaining time, clipped at zero against the second clock reading |
| `LocalCache.Cache.ListKeys` | components/caches/local.go:219-231 | each live key exactly once |
| `LocalCache.Cache.CountAll` | components/caches/local.go:209-216 | counts every entry, expired or not |
| `SingleFlight.RunKeepsInv` | components/caches/local.go:68-144 | over every run: one leader per flight, waiters are served, loads are covered by removals, every value came from a Set or a load of its key |
| `SingleFlight.LoadsNeverOverlap` | components/caches/local.go:84-107 | loader calls for one key never overlap |
| `SingleFlight.LoadsAreBounded` | components/caches/local.go:84-107 | a key is loaded at most once more often than its entry was removed |
| `SingleFlight.OneLoadPerKey` | components/caches/local.go:84-107 | with no lifetime and no Delete or Clean the loader succeeds at most once per key |
| `SingleFlight.ReturnsAreGenuine` | components/caches/local.go:68-121 | every value returned for a key was set or loaded for that key |
| `SingleFlight.ReplyIsReturned` | components/caches/local.go:68-121 | the steps by which a Get returns, and what it returns by each |
| `SingleFlight.GetFailsIff` | components/caches/local.go:96-111 | a Get fails iff the load of its flight failed |
| `SingleFlight.JoinersGetTheLeadersResult` | components/caches/local.go:84-107 | everybody who waits for a flight gets what its leader gets, however much later |
| `GetCourse.GetsTakeTheirCourse` | components/caches/local.go:68-121 | over every run every Get takes one of the courses of the source: look, wait or lead, look again, load at most once, store, return |
| `SingleFlight.SomeoneCanStep` | components/caches/local.go:84-107 | no pending Get waits for ever: it or the leader of its flight can step |
| `SingleFlight.StaleDeleteDropsFreshEntry` | components/caches/local.go:72-79 | why the refinement is sequential: a run in which the lazy delete drops an entry set since |
| `Invalidation.SetVanishesIff` | components/caches/local.go:68-93 | an entry just set can vanish, with nobody deleting the key or finding it stale, iff at the Set a Get had found an entry of the key stale and not deleted it yet |
| `Invalidation.DeleteIsFinalIff` | components/caches/local.go:68-156 | a Get begun after a Delete has returned can still return a value from before it iff, at the Delete, a flight of the key had its value and was not over |
| `SigningString.SortedIsUnique` | components/auths/jwt.go:117-117 | there is only one sorted listing of a set of keys |
| `Strings.LessIff` | components/auths/jwt.go:117-117 | the order is that of byte strings: a proper prefix, or the smaller byte where two first differ |
| `SigningString.SortMapToString` | components/auths/jwt.go:111-132 | the loops build the canonical string, whatever order the map yields its keys in |
| `SigningString.CanonicalIsUnique` | components/auths/jwt.go:111-132 | every map has exactly one canonical string |
| `SigningString.ParseUndoesPrintIff` | components/auths/jwt.go:111-132 | a parser gives the map back iff keys have no = or & and values no & |
| `SigningString.CanonicalIsInjective` | components/auths/jwt.go:111-132 | among those maps equal strings come from equal maps |
| `SigningString.CanonicalIsAmbiguousIff` | components/auths/jwt.go:111-132 | the string of a map is also that of another map, unless the map is empty or has a single entry with no = in key or value |
| `SigningString.SeparatorInValueConfuses` | components/auths/jwt.go:122-129 | with & in a value two different maps are signed alike |
| `KeyRing.RingHoldsLatest` | components/auths/jwt.go:251-274 | after any number of rotations each of the last nine keys sits at its issuing index modulo 9 and unreached slots are empty |
| `KeyRing.RingIsTheRecentKeys` | components/auths/jwt.go:251-274 | a key is in the ring iff it is among the last nine issued |
| `KeyRing.RestartRestores` | components/auths/jwt.go:186-213 | loading the slots and index of a ring in slot order gives that ring, after any number of rotations |
| `KeyRing.RestartFromOldestIff` | components/auths/jwt.go:188-213 | loading the keys oldest first gives it iff the ring has not wrapped or has just completed a turn |
| `KeyRing.NoticesFollowManager` | components/auths/jwt.go:251-274 | a replica that gets every update in order has the manager ring |
| `KeyRing.ReplicaConverges` | components/auths/jwt.go:51-57 | a replica fed any permutation of up to nine consecutive updates ends with the manager ring |
| `KeyRing.ReplicaDivergesIff` | components/auths/jwt.go:51-57 | some order of any number of consecutive updates leaves another ring iff two of them put different keys into one slot |
| `KeyRing.ConflictNeedsTen` | components/auths/jwt.go:251-274 | among different keys that is iff there are more than nine |
| `KeyRing.SignaturesEqualIff` | components/auths/jwt.go:66-107 | with a hash without collisions two signatures are equal iff the keys in the slots and the texts are |
| `KeyRing.SignatureCoversTheData` | components/auths/jwt.go:66-107 | under one key, maps that keep clear of the separators are signed alike iff they are equal |
| `KeyRing.SigningSucceedsIff` | components/auths/jwt.go:59-75 | signing succeeds iff the index is in range and its slot holds a key |
| `KeyRing.SignatureRecomputes` | components/auths/jwt.go:66-107 | a signature recomputes under its index across all updates to other slots |
| `KeyRing.CurrentKeySurvivesEight` | components/auths/jwt.go:251-274 | of up to nine rotations to other keys, the current key survives iff there are fewer than nine |
| `KeyRing.Jwt.UpdateKey` | components/auths/jwt.go:51-57 | exactly the indexed slot changes; out of range is an error and changes nothing |
| `KeyRing.Jwt.GetKeyByIndex` | components/auths/jwt.go:59-64 | the slot, or an error out of range |
| `KeyRing.Jwt.GenerateSignature` | components/auths/jwt.go:66-87 | the hash of the key in the current slot and the canonical string of the map, with that index, or the error of an empty slot |
| `KeyRing.Jwt.GenerateSignatureWithKeyIndex` | components/auths/jwt.go:89-107 | the hash of the key in the given slot and the canonical string of the map; out of range and empty slot are told apart |
| `KeyRing.JwtKeyManager.Initialise` | components/auths/jwt.go:186-230 | the error of the init handler, at most nine keys loaded, an index past the ring refused, a first key issued and announced for a negative one |
| `KeyRing.JwtKeyManager.Rotate` | components/auths/jwt.go:255-266 | one tick moves to the next slot, overwrites it alone and announces it |
| `Aes.UnPadUndoesPadIff` | utils/aes.go:10-20 | unpadding undoes padding iff the count fits in a byte |
| `Aes.SmallBlocksRoundTrip` | utils/aes.go:128-138 | which holds for all block sizes 1 to 255 |
| `Aes.PadFollowsStandard` | utils/aes.go:10-14 | at least one byte is added, up to a multiple of the block size, each the number of bytes added |
| `Aes.EcbLength` | utils/aes.go:156-162 | the padded length of ECB is that of the padding functions |
| `Aes.StripAcceptsIff` | utils/aes.go:199-217 | the checked unpadding returns a text iff the data is that text padded |
| `Aes.MapBlocksAt` | utils/aes.go:164-167 | each block goes through the cipher alone and in place |
| `Aes.MapBlocksInverts` | utils/aes.go:164-197 | mapping blocks back and forth restores the data |
| `Aes.EcbIsMutuallyInverse` | utils/aes.go:148-218 | decryption returns a text iff encrypting that text gives the ciphertext, for all byte strings and keys |
| `Aes.EcbRoundTrip` | utils/aes.go:148-218 | every text comes back |
| `Aes.EcbAcceptsTheImage` | utils/aes.go:180-218 | the decryptor accepts exactly the image of the encryptor |
| `Aes.XorBitsAt` | utils/aes.go:29-33 | a result bit is set iff the two bits differ |
| `Aes.CbcChains` | utils/aes.go:29-33 | each ciphertext block is the cipher of its text block combined with the ciphertext block before it, or the IV |
| `Aes.CbcDecryptInverts` | utils/aes.go:56-59 | CBC decryption undoes encryption for every block-aligned text and IV |
| `Aes.CbcEncryptInverts` | utils/aes.go:56-59 | and encryption undoes decryption |
| `Aes.CbcRoundTrip` | utils/aes.go:36-73 | the pairs that take an IV round-trip for every text, key and 16-byte IV |
| `Aes.CbcKeyIvRoundTrip` | utils/aes.go:75-114 | the pairs that take the IV from the key round-trip |
| `Aes.CbcAcceptedReencryptsIff` | utils/aes.go:103-138 | an accepted CBC ciphertext re-encrypts to itself iff its padding would pass the check of ECB |
| `Aes.CbcAcceptsUnpadded` | utils/aes.go:56-73 | under every key and IV sixteen unpadded zero bytes are accepted and do not re-encrypt to the same ciphertext |
| `Aes.KeyLengths` | utils/aes.go:148-151 | every function accepts keys of 16, 24 and 32 bytes and refuses all others |
| `Aes.EcbErrors` | utils/aes.go:189-208 | ECB never panics; empty and partial blocks are told apart |
| `Aes.CbcPanicsIff` | utils/aes.go:49-73 | with a good key CBC has no errors, and panics iff the IV is not 16 bytes or the ciphertext is empty, partial or ends beyond its length |
| `Aes.KeyIsTheIv` | utils/aes.go:28-32 | without an IV the first 16 bytes of the key are the IV |
| `Aes.AesEncryptECB` | utils/aes.go:148-170 | copy, padding and block loops fill the buffers as specified; wrong key lengths are refused |
| `Aes.AesDecryptECB` | utils/aes.go:180-218 | the block loop and every check in the order of the source |
| `Dispatch.ActionRunsOnceIff` | sunny.go:371-402 | the action runs exactly once iff group and action exist and no handler before it aborted; otherwise none runs |
| `Dispatch.RoleAbortEndsRequest` | role.go:60-73 | an aborting role before-handler is the last thing that runs |
| `Dispatch.CallAbortLeavesOneRoleAfter` | group.go:80-105 | after an abort inside Call only the first role after-handler runs beyond it, plus the first group after-handler if the action itself aborted |
| `Dispatch.UndisturbedRequest` | group.go:80-105 | without aborts all handlers run in order; a missing action skips it and the group after-handlers, and the role after-handlers still run |
| `Dispatch.RanToFirstAbort` | role.go:60-84 | a run over a list is its prefix up to the first aborting handler |
| `Dispatch.Context.RunAll` | role.go:60-84 | the loop calls exactly those handlers, and on an aborted context at most the first |
| `Dispatch.Role.UseBefore` | role.go:40-48 | the list is a sorted permutation of what was registered |
| `Dispatch.Role.UseAfter` | role.go:50-58 | likewise |
| `Dispatch.Group.UseBefore` | group.go:53-63 | likewise |
| `Dispatch.Group.UseAfter` | group.go:66-76 | likewise |
| `Dispatch.Group.Call` | group.go:80-105 | handlers called, answer and abort flag, for every combination of aborts |
| `Dispatch.PatternSplits` | sunny.go:343-352 | the path-not-found answer cannot occur, and the handler looks a route up under the first segment of its cleaned pattern |
| `Dispatch.FindsOwnPathIff` | sunny.go:344-352 | that finds the path of the route iff it is a slash and one segment that is not empty or dots |
| `Dispatch.RootFindsGroupParam` | sunny.go:392-419 | the path / is looked up under the group parameter |
| `Strings.KeyIsSharedIff` | sunny.go:767-769 | the key of a role and group label can be made of other labels iff one of the two has a colon |
| `Dispatch.OtherRolesGroupIff` | sunny.go:371-390 | a request runs its own role around the group under the joined key; without a colon in role and parameter that is the group asked for, and otherwise it has another role iff the two labels split the key at different colons |
| `Dispatch.RolesShareGroupsIff` | sunny.go:757-769 | some group parameter reaches a group of another role iff a registered key of another role starts with a known role label and a colon |
| `Dispatch.PlainRoleSharesIff` | sunny.go:757-769 | for a role label without a colon, iff a registered group has a role label that starts with it and a colon |
| `Dispatch.ColonInRoleConfuses` | sunny.go:371-372 | role a with group parameter b:c reaches group c of role a:b |
| `Dispatch.Sunny.UseGroup` | sunny.go:757-765 | a second group of the same key is refused and changes nothing; every group stays under its own key |
| `Dispatch.Sunny.InitWebRoutes` | sunny.go:392-421 | every role named by a route exists, has what it had and, once per route naming it, each registered handler, in order; the last route of a path decides its role |
| `Dispatch.TimesCounts` | sunny.go:400-412 | so each handler is there once per registration and route |
| `Dispatch.RequestRole` | sunny.go:352-360 | a request to a one-segment route has the role of the multi-role function of its path, and without one that of the last route registered with that path |
| `Dispatch.AnswersIff` | sunny.go:345-390 | which answer each request gets, in the order of what may be missing, and what is called before it |
| `Dispatch.SmallerOrderRunsFirst` | role.go:40-84 | a handler of smaller order is called earlier |
| `Dispatch.Sunny.Handle` | sunny.go:343-390 | role lookup with the multi-role override, every error answer, and the handlers called, each call free to abort or not |
| `Tasks.StepKeepsInv` | components/tasks/task.go:207-232 | every flag access, tick step and goroutine step keeps: IsRunning says whether a run is launched or about to be |
| `Tasks.OneRunPerWrapper` | components/tasks/task.go:207-232 | in every run a wrapper has at most one run in flight, launches = ends + in flight, and every launch came after the execution time read for it |
| `Tasks.CallersChangeOnlySo` | components/tasks/task.go:65-164 | what adding, pausing, resuming and rescheduling change in a wrapper, and that nothing else does |
| `Tasks.UndisturbedVisit` | components/tasks/task.go:207-232 | an undisturbed visit starts a task iff it is not running, not paused and overdue |
| `Tasks.ResumedCanStart` | components/tasks/task.go:151-164 | after a resume a task can always start again |
| `Tasks.OneRunPerId` | components/tasks/task.go:84-96 | as long as an ID is never removed, all its runs belong to one wrapper and never overlap |
| `Tasks.PausedStartsAtMostOnce` | components/tasks/task.go:134-147 | from a pause to the next resume a task starts at most once |
| `Tasks.PausedStartIff` | components/tasks/task.go:207-226 | and in some run it does, iff at the pause the tick was past its look at the flag |
| `Tasks.RemovedStartsAtMostOnce` | components/tasks/task.go:84-96 | a removed task starts at most once more |
| `Tasks.RemovedStartIff` | components/tasks/task.go:207-226 | and in some run it does, iff at the removal the tick was past its look at the pause flag, or at the task with the flag clear |
| `Tasks.GoesOnToLaunch` | components/tasks/task.go:212-226 | past the pause check only the execution time keeps a task from launching |
| `Tasks.OverlapIff` | components/tasks/task.go:84-96 | after a removal a successor of the same ID can run beside the old task iff that is running or can still start |
| `Tasks.ReaddedTaskOverlaps` | components/tasks/task.go:65-96 | a concrete run from the start in which it does, with the old task paused and removed |
| `Tasks.TaskManger.AddTask` | components/tasks/task.go:65-82 | a nil task and empty and duplicate IDs are errors; otherwise a new idle wrapper |
| `Tasks.TaskManger.RemoveTask` | components/tasks/task.go:84-96 | exactly the named wrapper goes; empty and unknown IDs are errors |
| `Tasks.TaskManger.PauseTask` | components/tasks/task.go:134-147 | only the flag of that wrapper is set |
| `Tasks.TaskManger.ResumeTask` | components/tasks/task.go:151-164 | only the flag of that wrapper is cleared |
| `Tasks.TaskManger.Sweep` | components/tasks/task.go:207-232 | an undisturbed tick launches exactly the eligible tasks, each once, in whatever order |
| `Sequences.AdvanceWraps` | components/sequences/local.go:32-39 | the counter after any number of calls in closed form |
| `Sequences.FormatIsExact` | components/sequences/local.go:41-42 | a formatted value reads back, and has exactly the width iff it is below that power of ten |
| `Sequences.NegativeFormat` | components/sequences/redis.go:76-76 | a negative value is printed with a sign that counts towards the width |
| `Sequences.NumeralsCompare` | components/sequences/local.go:41-42 | numerals of one length compare as strings like their values |
| `Sequences.IdsHaveFixedWidth` | components/sequences/local.go:32-46 | every ID has exactly strLen digits |
| `Sequences.IdsRepeatIff` | components/sequences/local.go:32-46 | two calls return the same ID iff a multiple of maxValue lies between them: any window of maxValue calls is pairwise distinct |
| `Sequences.WindowIsComplete` | components/sequences/local.go:32-46 | and such a window contains every value |
| `Sequences.OrderUntilWrap` | components/sequences/local.go:32-46 | string order is numeric order, and ascending until the counter wraps |
| `Sequences.LockstepIff` | components/sequences/redis.go:46-61 | from equal starts every script call returns what the local counter counts iff the key holds no text and not the largest integer, and the count is one that a Lua number holds exactly |
| `Sequences.ScriptErrors` | components/sequences/redis.go:54-70 | text in the key and the largest integer fail, each in its own way, and nothing else does |
| `Sequences.LockstepFromZero` | components/sequences/redis.go:46-61 | which every count from -2^53 on is, with maxValue below 2^53 |
| `Sequences.LocalSequence.Next` | components/sequences/local.go:32-46 | one step and its formatted value |
| `Sequences.RedisSequence.Next` | components/sequences/redis.go:43-77 | INCR and its errors, the rounding of Lua, reset to 1, the formatted value, and a lost connection before or after |
| `Sequences.RedisSequence.GetCurrent` | components/sequences/redis.go:95-111 | an absent key reads as 0; no answer and no number are errors |

## Left out

- Broker, Redis, SQL, gRPC and HTTP clients, gin's router, signals, logging, YAML loading, cloud storage and geocoding: I/O and libraries this model does not see; their answers are parameters.
- Real mutexes: `sync.Mutex` is ideal here, whereas Go's `TryLock` may also fail while a waiter is starving. An `fn` that re-enters its own key deadlocks and is not modelled.
- `DoWithWaitLock` of the in-process locker: only in the interleaved model, because a blocked call has no meaning for a single thread.
- Values for the Redis lock are assumed unique, as random 16-byte values are; `Lease.SharedValueAdmitsTwo` shows the need. Retries inside the Redis client appear only as lost replies.
- Fresh UUIDs are modelled as natural numbers never used before, and messages as ID, payload and count: timestamps and headers are left out. The retry count is unbounded.
- Outbox.KafkaLosesNothing: assumes a store that does not fail and survives; errors of `Store` are only logged by the source, a process restart empties the memory store, no second manager shares the store, and a Kafka manager without a store is not modelled.
- FailedMessages.KafkaManager.ResendPass: the connection does not drop in the middle of this single-threaded pass; in `Outbox` any send may fail.
- `Reconnect` and the reconnect monitor: `Reconnect` takes a lock and then calls `connect`, which takes it again, so it never completes when disconnected.
- Consumers, offset commits, redelivery and channel death on the broker's side.
- FileStore.SaveIsAtomic: a process crash only; nothing is synced, so power loss is not covered. `Backup`, `Restore` (which writes in place) and `Count` are left out, and JSON is an abstract lossless codec.
- LocalCache.Cache.GetKey: one goroutine, so the check inside the flight finds the key still absent; `SingleFlight` has that check.
- SingleFlight.OneLoadPerKey: `Clean`, cleanup and the lazy deletions of `Exists` and `GetWithTTL` are deletions of one key at a time, which may come at any time, and a loader that panics or a failing type assertion is not modelled. For `Invalidation.DeleteIsFinalIff` a load is new when it returns after the Delete, whatever the loader read.
- Aes.CbcRoundTrip: AES and the CBC mode of Go's library are an abstract permutation and the chaining of the standard, written as functions; buffers and the aliasing of `append` in the padding functions are not modelled.
- KeyRing.RestartRestores: assumes slot order, since the source leaves persistence to its caller; `KeyRing.RestartFromOldestIff` covers issuing order. `SetKeys` and the getters of the manager are left out.
- KeyRing.SignaturesEqualIff: HMAC-SHA256 is an abstract function of key and string, without collisions where that is said.
- Dispatch.Sunny.Handle: handlers act on the context only by aborting it; nil handlers and nil multi-role functions, JSON bodies, gin's own abort flag, and gin's rules for wildcards and escaped colons in a route path are left out. Handlers of equal order have no promised order.
- Tasks.OneRunPerWrapper: flags are read and written as atomic steps although the source does so without a lock, and the table starts allocated, which `NewTaskManger` does not do. There is no exclusion by ID across removal and re-adding; `Tasks.OverlapIff` says when it fails. `IsContinue` is never consulted by the source.
- Sequences.IdsHaveFixedWidth: for 16 digits and more the source computes the largest value in floating point, which is no longer exact; the model uses the exact value.
- `RedisCache`, whose `Get` returns the zero value on a hit, `GetGrpcClient`, pagination, configuration types and random strings.
