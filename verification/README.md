# Verification of the tiered cache

A Dafny model of the cache behind this repository and proofs about it. Each process holds an
in-memory L1 (`internal/cache/memory`); all processes share one authoritative Redis L2
(`internal/cache/redis`); a bus carries invalidations between them; `internal/cache/tiered` keeps
L1 coherent with L2 and decides when L1 may be served. `dafny verify dfyconfig.toml` checks
everything.

## What is modelled

| file | module | what it holds |
|---|---|---|
| `Protocol.dfy` | `Protocol` | the coherence protocol as a transition system of N instances |
| `Coherence.dfy` | `Coherence` | its inductive invariant: stale copies are owed an invalidation, recovery, readiness |
| `Recency.dfy` | `Recency` | how old a copy may be: nothing from a subscription gap survives |
| `Linearizable.dfy` | `Linearizable` | what `Get` and `GetMany` return on one instance without a bus |
| `OwnWrites.dfy` | `OwnWrites` | on a bus: reading one's own writes, and what an applied invalidation guarantees |
| `Hypotheses.dfy` | `Hypotheses` | exactly which L2 calls may fail after all without breaking coherence |
| `TieredCache.dfy`, `LookupBooks.dfy` | `Tiered`, `LookupBooks` | the L1 deadlines and the lookup counters of the tiered operations |
| `MemoryCache.dfy`, `MemoryConfig.dfy`, `Counters.dfy` | `MemoryCaches`, `MemoryConfig`, `Counters` | the sharded TTL map with its byte budget, eviction, cleanup and counters |
| `Accounting.dfy` | `Accounting` | the lock-free byte and entry counters, one atomic operation per step |
| `RedisFlush.dfy`, `Utf8.dfy` | `RedisFlush`, `Utf8` | the SCAN pattern, the Redis glob matcher and the delete loop |
| `TrackingQueue.dfy` | `TrackingQueue` | decoding of tracking notifications and the bounded buffers |
| `Metrics.dfy` | `Metrics` | concurrent statistics, scrapes and the exported histogram |

**Protocol.** A step is the code between two lock, atomic or network points, so a run is an
interleaving of the goroutines of any number of instances. `EnvStep`, `SubStep`, `MutStep`,
`ReadStep`, `HeldStep` and `RecStep` are the steps of, in this order, the surroundings (eviction,
broken connections, Redis tracking), the subscriber loop (internal/cache/tiered/invalidation.go:127-254),
the mutations (internal/cache/tiered/mutations.go:12-430), the reads
(internal/cache/tiered/read.go:10-241), the holder of the mutation lock in an availability check or
a reader's last section, and recovery (internal/cache/tiered/recovery.go:11-61). An instance is the
state of internal/cache/tiered/cache.go:18-54. The availability check is two steps, because it loads
health before readiness; degrading under the lock is two steps, because recovery can wake up between
the change of health and the L1 flush (internal/cache/tiered/health.go:36-90). L2 is the log of all
its committed contents. Two places take several points as one step: `SubFlush`, `SubApply` and
`GatePass` of an entry check do all they do under the mutation lock at once. Nobody else writes what
they write while they hold it, and an L1 lookup, which needs no lock, sees L1 before or after.

**Expiry in the protocol** has no clock. A committed item with a lifetime is `mortal`: a read of L2
may miss it. Any L1 entry may vanish at any moment. An L1 entry is mortal or not as well, and a copy
without a lifetime of an item that has one is stale: it would outlive the item. How long a mortal
entry lives is in `MemoryCaches` and `Tiered`, which have clocks and deadlines.

**Hypotheses.** Without them some of the results are false.

- Flushing L1 never fails, which is so for internal/cache/memory/cache.go:334-350.
- An L2 call that returned an error has not spoiled any copy. The error branches
  (internal/cache/tiered/mutations.go:272-275) and recovery leave the version as it was, publish
  nothing and leave nothing pending. So a change of L2 by a call that failed after all, by a lost reply
  or a flush that got through some of its pages, breaks coherence exactly where
  `Hypotheses.Safe` is false: writing another value over an item, or the same value with a lifetime
  over one without; counting or removing a key that is there; Touch of an item without a lifetime; a
  flush of anything. `Hypotheses.SafetyIsExact` proves both directions. `Linearizable` needs that such a call
  has changed nothing (`Reliable`).
- L2 keys are written only through instances of the tiered cache, and no process dies between a
  commit and its publication (docs/src/architecture.md:67-69 documents the crash case).
- A successful publication reaches every live subscription; a failed one reaches any subset.
- Without a bus there is at most one instance. Origins are distinct (here: the instance number).
- For the deadlines: L2 lifetimes are exact and never over-reported, and all clocks are one.
- For the prefix flush: SCAN returns every key that stays throughout, and pages hold only keys
  that match.

## Model

| member | source | states |
|---|---|---|
| Coherence.StaleEntryIsOwed | internal/cache/tiered/mutations.go:280-305 | in every reachable state of N instances, an L1 entry that disagrees with L2, or that has no lifetime while its L2 item has one, is owed an invalidation (queued, in hand, pending at a peer, a peer mid-mutation, or the own subscription down or not yet flushed), or the instance's own mutation holds the lock and has not fixed that key yet |
| Coherence.StaleReadIsOwed | internal/cache/tiered/read.go:45-98 | the same, lifetimes included, for an L2 read in flight whose version is still current |
| Coherence.SettledMeansFresh | internal/cache/tiered/invalidation.go:218-254 | once no mutation is under way and nothing is queued, in hand or pending, every L1 entry has L2's value and none outlives its L2 item for want of a lifetime |
| Coherence.HealedIsClean | internal/cache/tiered/recovery.go:11-61 | at every degraded-to-healthy step L1 is empty and nothing is pending, whatever mutations, readers and the subscriber do |
| Coherence.PendingIsHeld | internal/cache/tiered/invalidation.go:62-113 | pending work exists only while degraded or under the lock of the mutation that marked it; a pending flush excludes pending keys; once recovery has flushed L1 the epoch it expects is still the current one |
| Coherence.ReadyAgainIsEmpty | internal/cache/tiered/invalidation.go:134-162 | L1 is empty at every step that turns the subscription ready |
| Coherence.NextKeepsInv | internal/cache/tiered/invalidation.go:127-254 | every step of every instance keeps the whole invariant |
| Coherence.DutyStep | internal/cache/tiered/mutations.go:243-315 | a change of L2 that makes copies of a key stale, Touch included, creates a duty that ends only with a covering publication to everyone |
| Recency.NothingFromTheGap | internal/cache/tiered/invalidation.go:204-216 | in every run each L1 entry agreed with L2, lifetime included, at or after the last reconnect flush, and every read that may still be warmed was made after it |
| Linearizable.GetIsLinearizable | internal/cache/tiered/read.go:14-103 | without a bus, the answer of Get agrees with L2 at a moment between its entry check and its return |
| Linearizable.GetManyIsSnapshot | internal/cache/tiered/read.go:117-239 | without a bus, one moment inside the call agrees with the whole answer, L1 parts and L2 parts |
| Linearizable.WarmedReadIsCurrent | internal/cache/tiered/read.go:55-98 | without a bus, what a reader is about to warm is what L2 holds at that moment |
| OwnWrites.ReadsOwnWrites | internal/cache/tiered/mutations.go:280-305 | in every run of N instances: once an instance's mutation of a key has put its L1 right, every Get or GetMany that it lets in afterwards answers for the key with what L2 held at the commit or later, misses included; Touch is included if L1 had no other value for the key at the commit |
| OwnWrites.OwnCopiesAreRecent | internal/cache/tiered/mutations.go:280-305 | the same for its L1 copies and for the reads that may still be warmed |
| OwnWrites.ReadsInvalidated | internal/cache/tiered/invalidation.go:218-254 | the same for every read let in after the instance has applied an invalidation of the key, with the moment it was applied |
| OwnWrites.TouchKeepsOlder | internal/cache/tiered/mutations.go:367-382 | the condition on Touch is needed: from every state in which it fails the run can go on so that Touch has left L1 with a value that L2 has not held since |
| OwnWrites.TouchMeetsOlder | internal/cache/tiered/mutations.go:367-382 | such a state is reachable with two instances, for every key and every two different values |
| Hypotheses.SafetyIsExact | internal/cache/tiered/mutations.go:272-275 | for every operation and L2 contents: calls of it that change these contents and then fail leave every reachable state coherent if and only if the operation is safe there, a condition on the two alone |
| Hypotheses.SafeIsHarmless | internal/cache/tiered/mutations.go:243-430 | a safe operation makes no copy of these contents stale, whatever it does |
| Hypotheses.UnsafeDamages | internal/cache/tiered/mutations.go:243-430 | any other has an effect that does |
| Hypotheses.FailureBreaksLone | internal/cache/tiered/mutations.go:264-275 | every operation, every effect of it that makes a copy stale: on one instance without a bus a read under way warms that copy after recovery, and nothing is owed |
| Hypotheses.FailureBreaksPeer | internal/cache/tiered/mutations.go:264-275 | the same on a bus: a healthy peer keeps that copy while every instance is at rest and nothing is owed |
| Hypotheses.PartlyFailedFlushBreaksPeer | internal/cache/tiered/mutations.go:399-416 | a flush that deletes a key and then fails (internal/cache/redis/cache.go:318-335) leaves a healthy peer with a copy of it and nothing owed |
| Tiered.TieredCache.Store | internal/cache/tiered/mutations.go:243-315 | Set, Forever and Add: the outcome in every case, the change of L2 that a reply tells of is in L2's history since the call began, one version bump per commit, and what is in L1 under the key afterwards has the stored value and L1 deadline <= that L2 item's deadline + (time of the L1 write - a clock reading after the reply) |
| Tiered.TieredCache.SetMany | internal/cache/tiered/mutations.go:88-164 | the outcome in every case, one commit in L2's history for the whole batch with one version bump, and the same bound for each of its keys |
| Tiered.TieredCache.Touch | internal/cache/tiered/mutations.go:349-397 | the renewal is in L2's history; the same bound for an L1 entry, which keeps its value; a key unknown to L2 is not kept in L1 |
| Tiered.TieredCache.TryGet | internal/cache/tiered/read.go:14-103 | an answer is given only if the read was let in before its first look into L1 and again at the end; it is what the first look found, or what the second found, or what is left of what L2 held at a moment since the call began at which the version was still the current one; it adds one to exactly the counter this decides, and what came from L2 is in L1 within the same deadline bound; any other attempt adds nothing and has its reason: closed, unavailable, or a version that has moved since the entry check |
| Tiered.TieredCache.TryGetMany | internal/cache/tiered/read.go:117-239 | an answer is given only if the read was let in before its first look, again at the end, and the version is still that of the entry check; it is explained key by key by the looks into L1 and one L2 read, made at that version, for exactly the missed keys; every given occurrence, duplicates included, adds one to the counter its look and its key's fate decide; keys from L2 are in L1 within the deadline bound; any other outcome adds nothing and has its reason |
| Tiered.TieredCache.GetMany | internal/cache/tiered/read.go:109-241 | the same for any number of retries: exactly the number of given keys is added on success, nothing otherwise |
| Tiered.TieredCache.Get | internal/cache/tiered/read.go:10-103 | the same as TryGet for any number of retries: one lookup on success, none otherwise |
| LookupBooks.PassesExplain | internal/cache/tiered/read.go:128-237 | the two passes of GetMany with their running counts explain every result, and the counts are what the occurrences of all given keys deserve one by one |
| LookupBooks.SumsAreDeserved | internal/cache/tiered/read.go:197-237 | hits of the first pass plus the counts of the missed keys equal the sum over all occurrences, duplicates included |
| MemoryCaches.MemoryCache.Get | internal/cache/memory/cache.go:112-137 | returns exactly the unexpired item of the flat TTL map with its remaining lifetime; only an expired item disappears |
| MemoryCaches.MemoryCache.Store | internal/cache/memory/cache.go:254-271 | Set and Forever, that is cache.go:361-411: an admissible item is always stored, the third round cannot fail even if eviction takes the entry being replaced; no other key changes while there is room, and under pressure others go only by running out or by a recorded eviction |
| MemoryCaches.MemoryCache.Add | internal/cache/memory/cache.go:158-211 | stores exactly if the key is absent or expired, the second round cannot fail; the same about other keys |
| MemoryCaches.MemoryCache.Touch | internal/cache/memory/cache.go:293-319 | on the flat map: new deadline for a live item, an expired one disappears, nothing else changes |
| MemoryCaches.MemoryCache.Forget | internal/cache/memory/cache.go:273-290 | removes exactly the key and tells whether it was live |
| MemoryCaches.MemoryCache.Flush | internal/cache/memory/cache.go:334-350 | empties the map and both counters |
| MemoryCaches.MemoryCache.Count | internal/cache/memory/cache.go:413-484 | the exact sum or difference over the live entry found at the start, or over zero only if it was missing, has expired or has been evicted by the operation itself; the deadline is kept; errors exactly when the text, the range or the item limit demands one, and memory never runs short |
| MemoryCaches.MemoryCache.CountAll | internal/cache/memory/cache.go:413-484 | over any run of counter operations up to the first error, unless the counter itself is evicted or expires meanwhile: the stored text is the initial value plus the net change and the deadline is unchanged; moreover, while any admissible counter fits in, nothing is evicted and no other key changes |
| MemoryCaches.MemoryCache.TryReserve | internal/cache/memory/cache.go:548-561 | bytes are taken exactly if they fit |
| MemoryCaches.MemoryCache.EvictFor | internal/cache/memory/cache.go:563-606 | ends at or below min(budget - required, 95%), evicts live entries only if the expired ones were not enough, the last eviction was necessary, the summary accounts for what went |
| MemoryCaches.MemoryCache.EvictOneLRU | internal/cache/memory/cache.go:646-695 | for all random draws: the victim is the least recently used entry of the sample that the draws yield, or an entry of the first shard that has one if they yield none; an entry goes whenever there is one |
| MemoryCaches.MemoryCache.TryEvictCandidate | internal/cache/memory/cache.go:697-716 | removes exactly the candidate, only if it is still the entry of its key |
| MemoryCaches.MemoryCache.PurgeExpired | internal/cache/memory/cache.go:615-631 | exactly the expired entries of all shards go |
| MemoryCaches.MemoryCache.DeleteExpired | internal/cache/memory/cache.go:718-727 | deletes only the expected entry and only if it has run out |
| MemoryCaches.MemoryCache.SampleExpired | internal/cache/memory/expiration.go:15-36 | the candidates are expired entries of the shard, all of them if the sample covers it |
| MemoryCaches.MemoryCache.PurgeExpiredSample | internal/cache/memory/expiration.go:10-41 | only expired entries of that shard go, and all of them if the shard is no larger than the sample |
| MemoryCaches.MemoryCache.DeleteCandidates | internal/cache/memory/expiration.go:38-40 | for candidates of any age, touched or replaced meanwhile: exactly those still in place and expired go |
| MemoryCaches.MemoryCache.PurgeExpiredBackgroundBatch | internal/cache/memory/maintenance.go:7-27 | sweeps the next min(16, n) shards round-robin and moves the cursor by that many |
| MemoryCaches.MemoryCache.RunFrom | internal/cache/memory/maintenance.go:7-27 | any ceil(n / min(16, n)) ticks, with the cursor anywhere at their start and any other operations in between, sweep every shard: if its entries and the keys that may have been added do not exceed one sample, nothing in it had expired at the start; ticks alone change no live content |
| MemoryCaches.MemoryCache.RunMaintenance | internal/cache/memory/cache.go:530-546 | the same for the loop as it starts: cursor 0, access times advance by one per tick |
| MemoryCaches.CleanupIsInvisible | internal/cache/memory/cache.go:718-727 | what cleanup may remove leaves the live contents the same at every later time |
| MemoryConfig.Normalized | internal/cache/memory/config.go:20-45 | exactly which limits are accepted and with which error the others are refused; zero memory means 64 MiB, a zero item limit the lesser of 4 MiB and the memory; the item limit never exceeds the memory limit |
| Counters.CounterResult | internal/cache/memory/cache.go:486-497 | the mathematical result exactly if it fits into 64 bits, also when decrementing by the least integer, without intermediate overflow |
| Counters.CheckedCounterAdd | internal/cache/memory/cache.go:499-507 | the sum exactly if it fits |
| Counters.TextRoundTrip | internal/cache/memory/cache.go:430-446 | formatting and parsing a 64-bit integer gives it back |
| Counters.RunIsExact | internal/cache/memory/cache.go:486-507 | the text after any run of successful changes is the initial value plus the net change |
| Accounting.BudgetAlwaysHolds | internal/cache/memory/cache.go:548-561 | at every atomic step of every interleaving: installed cost <= byte counter <= budget |
| Accounting.QuietCountersAreExact | internal/cache/memory/cache.go:334-350 | with no shard lock held both counters are exact |
| Accounting.RefusalIsJustified | internal/cache/memory/cache.go:552-556 | a reservation is refused only if it did not fit at a moment of the same attempt |
| Accounting.StepMovesBalance | internal/cache/memory/cache.go:176-210 | every atomic operation of a lock holder moves the counters exactly as what they owe |
| RedisFlush.RedisScanPattern | internal/cache/redis/cache.go:337-351 | the pattern is the escaped prefix with every ill-formed byte replaced, and a star |
| RedisFlush.EscapedIsLiteral | internal/cache/redis/cache.go:341-348 | an escaped text and a star match exactly the keys that start with the text |
| RedisFlush.PatternSelectsPrefix | internal/cache/redis/cache.go:298-304 | the pattern selects exactly the prefixed keys if and only if the prefix is valid UTF-8 |
| RedisFlush.IllFormedPrefixMisses | internal/cache/redis/cache.go:337-351 | for the prefix FF the pattern misses the key FF and selects the foreign key EF BF BD |
| RedisFlush.RedisCache.DeleteMatching | internal/cache/redis/cache.go:318-335 | on success every matching key that is left was added meanwhile; keys that do not match are as without the call, also on failure |
| RedisFlush.RedisCache.Flush | internal/cache/redis/cache.go:298-304 | the same for the prefix itself, if it is valid UTF-8 |
| Utf8.EncodeDecodes | internal/cache/redis/cache.go:341-346 | re-encoding a decoded rune gives its bytes, or the replacement character for an ill-formed byte |
| Utf8.RepairGrows | internal/cache/redis/cache.go:341-346 | decoding and encoding keeps valid text and makes any other text longer |
| TrackingQueue.DecodeTrackingInvalidations | internal/cache/redis/invalidation.go:183-225 | a notification decodes to one flush exactly if it resets the cache, to an error exactly if it is malformed, and never to a single-key event |
| TrackingQueue.Subscription.EnqueueTracking | internal/cache/redis/invalidation.go:369-380 | the result enters the buffer, or a full buffer turns it into one flush signal |
| TrackingQueue.Subscription.HandlePushNotification | internal/cache/redis/invalidation.go:153-181 | what a notification adds to the history, and when the marker is renewed |
| TrackingQueue.Subscription.Receive | internal/cache/redis/invalidation.go:389-410 | a tracking error comes first; exactly what is handed out leaves its buffer, tracking results and flushes enter the history; nothing else moves in any buffer |
| TrackingQueue.Subscription.DrainedLosesNothing | internal/cache/redis/invalidation.go:369-410 | once drained, all buffered results were delivered in order and every dropped one was followed by a delivered flush |
| Metrics.SnapshotsAreNeverOverCounted | internal/observability/metrics.go:485-510 | under any interleaving, a scraped operation shows no more bucket samples and no more errors than calls |
| Metrics.ExportedHistogramIsValid | internal/observability/collector.go:238-244 | the exported cumulative buckets never decrease and never exceed the sample count |
| Metrics.QuietHistogramIsExact | internal/observability/metrics.go:334-357 | with no call under way each cumulative bucket counts exactly the calls that took at most its bound |
| Metrics.HistogramBuckets | internal/observability/collector.go:317-326 | the exported buckets are the running totals under their bounds |

## Left out

- PHP bridge, C strings, Caddy module, environment parsing: plumbing and foreign calls.
- The Redis client, Lua scripts, RESP3 and Pub/Sub transport: L2 is a map with deadlines, the bus per-subscriber queues that may break.
- Parsing of Redis replies (internal/cache/redis/cache.go:353-447): it would add only easy members.
- Re-arming the tracking marker (internal/cache/redis/invalidation.go:275-358): it depends on the server; nothing is claimed about every external prefix flush clearing L1.
- Start-up, Close and the closed state in `Protocol`: a run starts with fresh instances and does not end them.
- Remaining lifetimes in `Protocol`: a copy with a lifetime longer than its L2 item's is not stale there; `Tiered` bounds by how much it can be longer.
- Liveness within a time bound, and termination of Store, Add and EvictFor under unbounded concurrent writers: rounds are bounded for one caller at a time.
- The retry loops of Get and GetMany in `Tiered` stop after `patience` attempts, for every patience; the source goes on as long as it is overtaken.
- An error from L1 reads: MemoryCache never returns one.
- Results for calls that changed L2 and failed where `Hypotheses.Safe` does not hold: coherence is false there.
- Forget, Flush and the counters in `Tiered`: they give L1 no lifetime and count no lookup; `Protocol` has them.
- Memory entries are values in `MemoryCaches`; `id` stands for the pointer that eviction and cleanup compare. Aliasing of an entry held outside its shard is not captured.
- The capacity that the runtime gives a new byte slice is an arbitrary function of the length, and the shard of a key an arbitrary function of the key.
- Overflow of 64-bit sums of byte counts (budgets above 2^56 or so) and of statistics counters.
- MemoryCache.SetMany and MemoryCache.GetMany: loops over the modelled Set and Get.
- Eviction observers that call back into the cache, pressure reporting, log texts, metric descriptors.
- Batch, lookup and invalidation statistics in `Metrics`: single counters without an ordering claim.
- MemoryCaches.MemoryCache.Count: does not promise that a counter survives; when the operation's own eviction takes it, it continues from zero, as the code does.
- Linearizable.GetIsLinearizable: one instance without a bus; with a bus other instances' copies may lag, which Coherence.StaleEntryIsOwed and OwnWrites.ReadsOwnWrites bound.
