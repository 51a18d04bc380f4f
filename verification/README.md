# cachecore: a verified model

cachecore is a distributed in-memory cache: a group of nodes, each with an LRU or segmented-LRU store
(optionally sharded), a loader that merges concurrent loads of one key, a consistent-hash ring that says
which node owns a key, counters that live in the cache or in a durable backend, stale copies served when a
load is slow, and a Bloom filter that can turn unknown keys away. This project models those parts in Dafny
and proves what they keep over every run.

| file | part |
|---|---|
| `Entries.dfy` | entries, byte sums, list surgery, the callback log |
| `SlruModel.dfy`, `Slru.dfy` | segmented LRU: one list with a movable split; the class with two lists, map, tags and counters that refines it |
| `LruModel.dfy`, `Lru.dfy` | plain LRU: one recency list; the class that refines it |
| `Stores.dfy`, `Cache.dfy` | either store behind one interface, against a TTL map; the lazily created local cache |
| `StoreLaws.dfy` | what lookups, writes, removals and sweeps of either store do, by keys, bytes, TTLs and times |
| `Sharded.dfy`, `ShardedCache.dfy`, `HashLaws.dfy` | the hash, the byte split and the partition; the class over separate local caches |
| `Decimal.dfy`, `Numerals.dfy` | decimal text, printed and parsed; what the parser accepts, by a definition that does not parse |
| `Counter.dfy`, `CounterLaws.dfy` | cache-only counters; what an increment answers, by the value's text |
| `DurableIncrements.dfy`, `LocalIncrements.dfy` | increments by many threads: durable ones under striped locks, and those without a backend |
| `Singleflight.dfy`, `SingleflightRuns.dfy` | the duplicate-suppressing loader as a concurrent protocol, and its runs |
| `SingleflightResults.dfy`, `SingleflightProgress.dfy` | what callers get, and the completion of calls |
| `RingModel.dfy`, `RingLaws.dfy`, `Ring.dfy`, `Routing.dfy`, `Pool.dfy` | the hash ring, routing between nodes, the peer pool |
| `Forwarding.dfy` | the loads of one key across a cluster, each node's merged into one call |
| `Bloom.dfy`, `FilterGateModel.dfy`, `FilterGate.dfy` | the Bloom filter, the filter gate and its refreshes |
| `Storage.dfy` | one local cache or a sharded one, behind one interface |
| `GroupModel.dfy`, `Group.dfy` | active and stale caches, sharded or not, with TTL jitter, negative answers, invalidation, Get, increments |
| `GroupReads.dfy` | what the group's operations leave in the caches, and what later Gets find |
| `GatedGroup.dfy` | a group and its filter gate together |
| `Runs.dfy` | folds of a step function and the invariant rule for them |

Time is passed in: each operation carries the clock readings it makes, and an entry is still served when
`now == expireAt`. Random draws, getter and peer answers and hash values are parameters as well. Concurrent
parts are state machines whose runs are all lists of labels; a label whose step is not enabled does nothing,
so the runs are exactly the interleavings.

Some things the program does not promise in every case. For each the exact condition is a lemma here:

- the plain LRU's capacity loop ends if and only if the capacity is not negative (`LruModel.LoopEnds`);
- adding and then removing ring members restores the ring if and only if none of their points had an owner
  (`RingModel.AddRemoveRestores`); a key that leads to a point that had one is then answered with the empty
  name (`RingModel.LookupAfterRemoval`);
- nodes that list the same peers in different orders agree on every key's owner if and only if different peers
  share no point (`RingModel.SameOwnerExactly`, `Routing.OneHopExactly`). If two share one, a Get can be
  forwarded and sent back (`Routing.CollisionsReturn`); there it joins the call that forwarded it
  (`Forwarding.OneCallPerNode`), and the two nodes' calls wait for each other: such cycles are reachable if and
  only if peers share a point (`Forwarding.NoCycleExactly`), and without a wait limit they stay for ever and
  catch every later Get (`Forwarding.FinishExactly`, `Forwarding.CycleStays`, `Forwarding.CycleCatches`);
- a caller waiting for a load can return if and only if the load has not panicked under `Do`; such a panic
  blocks its key for good (`SingleflightProgress.WaiterReturnsExactly`,
  `SingleflightProgress.DeadForEver`);
- a filter refresh keeps warmed-up keys admitted if and only if its reset interrupts no warmup that would lose
  keys by it (`FilterGateModel.ResetExactly`, `FilterGateModel.OverlapLoses`);
- a stale value that the timeout path serves is the key's last write if and only if that write is a value: a
  "not found" is not told to the stale cache, which serves the older value once the "not found" has expired
  (`GroupModel.BoundedStaleness`, `GroupModel.StaleOutlivesNegative`);
- without a backend the stale copy of a counter stays exact after an increment if and only if no other thread is
  still to write an older value (`LocalIncrements.OverlapExactly`);
- the parts of a sharded cache exceed the configured bytes if and only if there are fewer bytes than shards;
  0 bytes, for one, do not mean "no limit" there (`Sharding.PartsFit`).

The striped locks, in turn, are needed for what durable increments do promise: with at least one stripe, which
the constructor always gives, a cached counter agrees with its backend over all interleavings, and with none it
would not (`DurableIncrements.LocksNeeded`).

## Model

| member | source | states |
|---|---|---|
| `SlruCaches.SlruCache.Replay` | internal/lru/slru.go:53-229 | any run of public operations does to protected ++ probation what the same run does to one list with a split; map, tags and the three byte counters stay exact and both byte bounds hold |
| `SlruCaches.SlruCache.constructor` | internal/lru/slru.go:38-50 | an empty cache in a valid state; a ratio outside (0, 1) becomes 0.8 |
| `SlruCaches.SlruCache.Get` | internal/lru/slru.go:53-70 | miss, expired hit (removed, called back) and live hit answer and change the lists as the one-list model does; after a live hit the protected list is the longest fitting prefix of the entry and the other protected ones |
| `SlruCaches.SlruCache.AddWithTTL` | internal/lru/slru.go:89-126 | an old key moves to the front of its own segment, a new key enters at the split, then demotion and eviction follow; the entry, if kept, has the value and is due when the TTL has passed, or never without one |
| `SlruCaches.SlruCache.Promote` | internal/lru/slru.go:161-172 | a probation hit goes to the very front, only the split moves behind it, and the capacity loop does nothing |
| `SlruCaches.SlruCache.EnforceProtectedLimit` | internal/lru/slru.go:174-190 | the concatenated list and the callback log are unchanged; the protected list becomes its longest prefix within the limit, no shorter one |
| `SlruCaches.SlruCache.EnforceTotalLimit` | internal/lru/slru.go:192-204 | ends for every capacity, drops exactly the shortest suffix needed, and leaves the protected list alone when that is within its limit |
| `SlruCaches.SlruCache.RemoveElement` | internal/lru/slru.go:214-229 | takes one key out of its list, the map and the counters, and calls back once |
| `SlruCaches.SlruCache.Remove` | internal/lru/slru.go:129-133 | removal of a present key, nothing for an absent one |
| `SlruCaches.SlruCache.RemoveOldest` | internal/lru/slru.go:73-81 | drops the last entry of the concatenated list |
| `SlruCaches.SlruCache.RemoveExpired` | internal/lru/slru.go:136-154 | keeps exactly the entries not expired at its one clock reading, in order, and calls back the others back to front |
| `SlruModel.ProtectedMaxBounds` | internal/lru/slru.go:206-212 | the protected limit is between 1 and the capacity |
| `SlruModel.ProtectedMaxExact` | internal/lru/slru.go:206-212 | it is the whole part of capacity times ratio, or 1 where that is less |
| `SlruModel.RunInv` | internal/lru/slru.go:53-204 | in every reachable state keys are distinct, the total is within the capacity and the protected bytes within their limit |
| `SlruModel.EvictSparesHot` | internal/lru/slru.go:192-204 | eviction never reaches a protected part that is within its limit |
| `SlruModel.ScanResistance` | internal/lru/slru.go:53-154 | no scan, however long, changes the protected entries or their order; a scan reads keys it does not find or finds expired, writes and removes unprotected keys, and removes the oldest entries and the expired ones while those are not protected |
| `SlruModel.LiveHit` | internal/lru/slru.go:60-67 | a live hit returns the stored value, calls nothing back, keeps every resident key and goes before the others, whose order is unchanged |
| `SlruModel.HitSegment` | internal/lru/slru.go:161-190 | the hit entry ends protected if and only if it fits there or the cache is unlimited; otherwise nothing is left protected |
| `SlruModel.HitCuts` | internal/lru/slru.go:161-190 | a hit demotes as few protected entries as the limit asks for: the protected part is the longest fitting prefix of the hit entry and the other protected ones, and the demoted ones lead the rest |
| `SlruModel.WriteCuts` | internal/lru/slru.go:89-126 | so does a write to a protected key; any other write leaves the protected part as it was |
| `SlruModel.Conservation` | internal/lru/slru.go:53-229 | over every run, each fresh insertion of a key is accounted for once: resident or called back |
| `Entries.FitLenFits` | internal/lru/slru.go:179-203 | the prefix kept by demotion or eviction fits its limit |
| `Entries.FitLenMax` | internal/lru/slru.go:179-203 | and no longer prefix fits |
| `Entries.LiveKey` | internal/lru/slru.go:136-154 | a key survives a sweep if and only if its entry is live, and unchanged |
| `LruCaches.LruCache.Replay` | internal/lru/lru.go:39-122 | any run of public operations is a run of the one-list model; map and byte counter stay exact |
| `LruCaches.LruCache.constructor` | internal/lru/lru.go:29-36 | an empty cache in a valid state, for any capacity |
| `LruCaches.LruCache.Get` | internal/lru/lru.go:39-52 | miss, expired hit and live hit answer and change the list as the model does |
| `LruCaches.LruCache.AddWithTTL` | internal/lru/lru.go:74-97 | the entry goes to the front and the longest prefix within the capacity is kept; the entry, if kept, has the value and is due when the TTL has passed, or never without one |
| `LruCaches.LruCache.EnforceLimit` | internal/lru/lru.go:94-96 | the loop ends and drops exactly the shortest suffix needed |
| `LruCaches.LruCache.RemoveOldest` | internal/lru/lru.go:55-66 | drops the last entry, with its callback |
| `LruCaches.LruCache.Remove` | internal/lru/lru.go:100-110 | removal of a present key, with its callback |
| `LruCaches.LruCache.RemoveExpired` | internal/lru/lru.go:113-122 | judges each entry at a clock reading of its own, from the back |
| `LruModel.RunInv` | internal/lru/lru.go:39-122 | in every reachable state keys are distinct and the total is within the capacity |
| `LruModel.SweepBounds` | internal/lru/lru.go:113-122 | the sweep leaves nothing expired at its start, removes only what is expired at its end, and keeps the order |
| `LruModel.Inclusion` | internal/lru/lru.go:39-97 | over every run of reads, writes and invalidations whose loads of a key all have one size, the keys of the smaller cache are a prefix of those of the larger one in recency order |
| `LruModel.HitInclusion` | groupcache.go:82-107 | so every hit of the smaller cache is a hit of the larger one |
| `LruModel.Conservation` | internal/lru/lru.go:55-110 | each fresh insertion of a key is accounted for once: resident or called back |
| `LruModel.LoopEnds` | internal/lru/lru.go:94-96 | the guard of the loop that removes the oldest entry becomes false after some turns if and only if the capacity is not negative |
| `Stores.HitIsLastWrite` | internal/lru/lru.go:39-122 | for every run of either store a hit returns the value of the key's last write, not removed since and not expired |
| `Stores.RunAgrees` | internal/lru/slru.go:53-154 | every resident entry is its key's last write |
| `Stores.UnlimitedIsExact` | internal/lru/lru.go:39-122 | an unlimited store answers exactly as the TTL map: it hits if and only if the last write is live |
| `Stores.LazyIsEager` | cache.go:41-89 | creating the store at the first write cannot be told from creating it at once |
| `StoreLaws.HitIsLastAdd` | internal/lru/lru.go:39-97 | over every run of either store a hit is the last write of its key that no removal follows, without TTL or not later than that write plus its TTL |
| `StoreLaws.UnlimitedServes` | internal/lru/lru.go:39-97 | an unlimited store finds that write exactly as long as that holds: for ever without a TTL |
| `StoreLaws.WriteStays` | internal/lru/slru.go:89-126 | a write is kept if and only if its bytes fit behind those of the protected entries (behind none in a plain store) |
| `StoreLaws.WriteFound` | internal/lru/lru.go:74-97 | a write that is kept is found, with its value, exactly until it is due |
| `StoreLaws.WriteSpares` | internal/lru/lru.go:74-97 | the other entries keep their order, and only the last of them may go |
| `StoreLaws.HitInFront` | internal/lru/lru.go:39-52 | a hit puts its entry in front of the others, in their order |
| `StoreLaws.GetSpares` | internal/lru/lru.go:39-52 | a lookup changes no other entry, and its own only by removing it when expired |
| `StoreLaws.RemoveTakes` | internal/lru/lru.go:100-110 | a removal takes out the key and nothing else |
| `StoreLaws.SweepClears` | internal/lru/lru.go:113-122 | a sweep leaves nothing expired at its first reading, removes only what is expired at its last, and changes no entry |
| `StoreLaws.CallsBackwards` | internal/lru/lru.go:55-66 | entries that go together are called back from the last to the first |
| `StoreLaws.TextFits` | internal/lru/lru.go:74-97 | over every run of a limited store the lengths of all resident keys and values add up to at most its capacity |
| `Caches.Cache.EnsureStore` | cache.go:41-58 | creates the configured kind of store if there is none, and changes nothing that a caller sees |
| `Caches.Cache.Do` | cache.go:60-89 | each operation answers and changes the contents as the lazy cache; only a write creates the store |
| `Caches.Cache.Increment` | cache.go:91-116 | the answer and new contents are those of the increment on what the cache held, with one clock reading at the lookup and one at the write; a value that is no numeral is refused and every entry left as it was, any other answer is the wrapped sum of the number its text denotes and the delta |
| `Sharding.Djb33` | sharded.go:12-18 | the byte loop computes the 32-bit left fold that the partition is defined by |
| `HashLaws.EveryByteCounts` | sharded.go:12-18 | keys that differ in one byte only have different hashes |
| `HashLaws.HashValues` | sharded.go:12-18 | two hashes worked out by hand |
| `HashLaws.BucketIsRemainder` | sharded.go:37-40 | a key's bucket is the remainder of its hash by the number of shards |
| `Sharding.PartsFit` | groupcache_config.go:247-253 | the parts add up to at most max(cacheBytes, shards), fall short by less than one byte per shard, and exceed cacheBytes if and only if that is below the shard count |
| `Sharding.ShardedBound` | groupcache_config.go:247-253 | in every reachable state, increments included, all shards together hold at most max(cacheBytes, shards) bytes |
| `Sharding.ShardedTogether` | sharded.go:37-66 | in every reachable state, increments included, each key is resident only in its own bucket and is its last write over all shards |
| `Sharding.ShardedHit` | sharded.go:50-52 | a hit returns the key's last write over the whole sharded cache, unexpired |
| `Sharding.IncrementsOwnShard` | sharded.go:54-56 | an increment is the local cache's increment in the key's own shard and leaves the others alone |
| `ShardedCaches.ShardedCache.constructor` | sharded.go:20-35 | separate, empty local caches of equal size |
| `ShardedCaches.ShardedCache.Do` | sharded.go:37-60 | only the key's own shard changes, as its store does |
| `ShardedCaches.ShardedCache.Increment` | sharded.go:54-56 | only the key's own shard changes, by one increment |
| `ShardedCaches.ShardedCache.ClearupExpired` | sharded.go:62-66 | every shard is swept once |
| `ShardedCaches.ShardedCache.Replay` | sharded.go:42-66 | any run over the separate caches, increments included, is a run of the shards as values |
| `Storages.Storage.constructor` | groupcache_config.go:243-268 | one empty store of the configured size and kind, or one per shard (256 if 0 are asked for) with an equal part |
| `Storages.Storage.Do` | cache.go:11-20 | sharded or not, the operation is dispatched to the key's own store |
| `Storages.Storage.Increment` | cache.go:91-116 | sharded or not, the increment happens in the key's own store |
| `Storages.Storage.ClearupExpired` | cache.go:135-142 | every store is swept, with clock readings of its own |
| `Decimal.PrintParse` | cache.go:127-133 | parsing a printed number gives it back if it fits 64 bits and fails otherwise |
| `Decimal.StoredNumber` | cache.go:127-133 | the same with any white space around the text that TrimSpace removes, the UTF-8 encoded Unicode spaces included |
| `Numerals.ParsesExactly` | cache.go:127-133 | a text is read as n if and only if it is, within white space, an optional sign and at least one digit, nothing else, whose digits times their powers of ten sum to n, and n fits 64 bits |
| `Numerals.TrimsWhiteSpace` | cache.go:128-128 | what is trimmed is the Unicode white space, by code point |
| `Numerals.PrintsCanonical` | cache.go:108-109 | a printed number denotes itself, without plus sign or leading zeros |
| `Numerals.WrapsExactly` | cache.go:108-108 | a wrapped sum is the one 64-bit integer that differs from the sum by a multiple of 2^64 |
| `Decimal.WrapAdd` | cache.go:108-108 | wrapping sums early or late gives the same result |
| `Counter.IncrementAdds` | cache.go:91-116 | an increment returns and stores the sum so far plus its delta, wrapped |
| `Counter.SumConserved` | cache.go:91-116 | mixed with any other traffic, while the counter stays resident a hit reads as the start plus all deltas, wrapped to 64 bits, from any start value that the program reads as a number |
| `Counter.PaddedStart` | cache.go:91-133 | a number stored by anyone else with white space around it is such a start value |
| `Counter.SumReordered` | cache.go:91-116 | any reordering of the same increments has the same sum |
| `CounterLaws.RefusesExactly` | cache.go:97-106 | an increment is refused if and only if the key has a value whose text is no numeral, and then every entry stays as it was |
| `CounterLaws.CountsExactly` | cache.go:97-116 | otherwise it answers the number the text denotes plus the delta, wrapped, and writes the canonical numeral of that |
| `CounterLaws.CountsFromZero` | cache.go:97-106 | absent, expired, "not found" and empty values count as 0 |
| `DurableIncrements.MutualExclusion` | increment_locks.go:18-26 | two threads in the critical section of one stripe are the same thread |
| `DurableIncrements.RunInv` | groupcache.go:168-188 | every interleaving keeps stripe ownership, backend answers and cache agreement |
| `DurableIncrements.CacheMatchesBackend` | groupcache.go:168-188 | for any start values and any addition, wrapping or not: after every interleaving the backend holds the result of its deltas in order, and a cached counter equals it unless a thread is between the backend's answer and that cache write |
| `DurableIncrements.AnswersAreOrdered` | groupcache.go:175-188 | every answer is the result of the deltas applied up to and including its own |
| `DurableIncrements.UnlockedRace` | increment_locks.go:19-21 | without stripes (a nil or zero-valued lock, which the constructor never makes) two increments of any key could leave the cache one step behind the backend with nothing pending |
| `DurableIncrements.LocksNeeded` | increment_locks.go:8-26 | cache and backend agree over all interleavings if and only if there are stripes, for any addition under which a second increment changes the value |
| `DurableIncrements.OneIncrement` | groupcache.go:168-188 | an increment that finds its stripe free and runs to its end leaves its answer in the backend and both caches, frees the stripe and changes nothing else |
| `DurableIncrements.FailedIncrement` | groupcache.go:175-178 | one that the backend refuses changes nothing and frees the stripe |
| `DurableIncrements.LockWaits` | increment_locks.go:18-26 | while another thread has the stripe, an increment waits |
| `LocalIncrements.ActiveExact` | groupcache.go:157-166 | without a backend, after every interleaving a counter in the active cache is the sum of all deltas added since that cache last lost it |
| `LocalIncrements.OneIncrement` | groupcache.go:157-166 | an increment that nothing overlaps leaves its answer in both caches |
| `LocalIncrements.SerialCopies` | groupcache.go:157-166 | if increments of one key do not overlap, its stale copy equals the active counter whenever nothing is pending |
| `LocalIncrements.OverlapExactly` | groupcache.go:157-166 | at every state, after an increment and whatever follows up to the next one of its key, that equality holds if and only if no thread is still to write an older value |
| `SingleflightRuns.RunInv` | internal/singleflight/singleflight.go:28-101 | every interleaving keeps the map, calls, channels and callers consistent |
| `SingleflightRuns.OneFlight` | internal/singleflight/singleflight.go:28-73 | at most one call per key is not yet deleted, so at most one function runs per key |
| `SingleflightRuns.DeleteRemovesItself` | internal/singleflight/singleflight.go:88-91 | the delete always removes the completing call, never another of the same key |
| `SingleflightRuns.CallersGetTheirCall` | internal/singleflight/singleflight.go:28-73 | over every run, a caller that joins a call belongs to it ever after: if it returns, it has that call's result; it never finds its channel closed and empty; it panics only if that call did |
| `SingleflightResults.ReturnDelivers` | internal/singleflight/singleflight.go:28-101 | when the function of a call returns, every caller of the call that ever returns, early or late, under Do or DoChan, has exactly what it returned, and nothing else is sent on a channel of the call |
| `SingleflightResults.PanicDelivers` | internal/singleflight/singleflight.go:68-83 | when it panics under DoChan, they have no value and an error that names the panic |
| `SingleflightResults.NewCallRuns` | internal/singleflight/singleflight.go:28-67 | a caller that finds no call for its key starts one, which later callers find |
| `SingleflightResults.NoSecondCall` | internal/singleflight/singleflight.go:33-55 | one that finds a call starts none and joins it |
| `SingleflightRuns.SendsNeverBlock` | internal/singleflight/singleflight.go:93-100 | no channel registers after the snapshot, and every send finds an open, empty channel |
| `SingleflightRuns.ChannelsServedOnce` | internal/singleflight/singleflight.go:93-100 | a finished call has sent its result exactly once on every channel that ever joined it, and closed it |
| `SingleflightRuns.LateDo` | internal/singleflight/singleflight.go:84-91 | a Do between wg.Done and the delete joins the finished call and can return at once |
| `SingleflightRuns.LateDoChan` | internal/singleflight/singleflight.go:84-91 | a DoChan in that window is in the snapshot the delete takes |
| `SingleflightProgress.CompletionNeverStuck` | internal/singleflight/singleflight.go:84-101 | from every reachable state, a call whose function returned can be completed by its runner alone, with no step of any caller |
| `SingleflightProgress.DeadForEver` | internal/singleflight/singleflight.go:28-57 | after a panic under Do the dead call stays in the map over every run, so that all later callers of its key join it, and none of its waiters ever returns |
| `SingleflightProgress.PanicAbandons` | internal/singleflight/singleflight.go:42-46 | that state is reached from every state in which the key has no call |
| `SingleflightProgress.WaiterReturnsExactly` | internal/singleflight/singleflight.go:33-101 | a waiting caller, under Do or DoChan, can still return if and only if its call has not panicked |
| `HashRings.Search` | internal/consistenthash/consistenthash.go:67-69 | the least index whose point is not below the hash |
| `HashRings.HashRing.Add` | internal/consistenthash/consistenthash.go:34-43 | the points stay sorted; the bag and the owners change as adding each virtual node in turn |
| `HashRings.HashRing.Remove` | internal/consistenthash/consistenthash.go:46-59 | the points stay sorted; one occurrence of each virtual node's point and its owner entry go |
| `HashRings.HashRing.Get` | internal/consistenthash/consistenthash.go:62-71 | the owner of the first point at or after the hash, wrapping to the least; the empty name for an empty ring |
| `HashRings.SortedUnique` | internal/consistenthash/consistenthash.go:42-42 | sorted lists with the same bag are equal, so equal models are equal rings |
| `RingModel.AnswerUnique` | internal/consistenthash/consistenthash.go:62-71 | a lookup has one answer |
| `RingLaws.PointsExactly` | internal/consistenthash/consistenthash.go:34-43 | the points of a peer are the hashes of each number below the replicas, in decimal, in front of its name |
| `RingLaws.BuildExactly` | internal/consistenthash/consistenthash.go:34-43 | a ring has exactly the points of its peers, and each belongs to the last listed peer that has it |
| `RingLaws.LookupExactly` | internal/consistenthash/consistenthash.go:62-71 | a lookup answers the last listed peer that has the first point at or after the hash, going round to the least, and the empty name on an empty ring |
| `RingModel.MinimalMovement` | internal/consistenthash/consistenthash.go:34-43 | on a non-empty ring, adding peers changes a key's owner only to one of them, whatever the collisions |
| `RingModel.AddRemoveRestores` | internal/consistenthash/consistenthash.go:34-59 | adding peers and removing them restores the ring if and only if none of their points was owned before |
| `RingModel.LookupAfterRemoval` | internal/consistenthash/consistenthash.go:46-71 | after adding and removing peers, a key is answered with the empty name if it leads to a point of theirs, and with its owner of before otherwise |
| `RingModel.SameRing` | http.go:70-79 | lists with the same peers in any order and repetition build the same points and owners, when different peers share no point |
| `RingModel.SameOwnerExactly` | http.go:70-79 | all reorderings of a peer list give every key the same owner if and only if different peers share no point |
| `Routing.OwnersAgree` | http.go:81-92 | all nodes that list the same peers agree on every key's owner, if points of different peers do not collide |
| `Routing.OwnerServes` | http.go:181-181 | the node a key is forwarded to never forwards it |
| `Routing.AtMostOneHop` | groupcache.go:219-237 | any chain of forwards has at most one hop |
| `Routing.PickedIsListed` | http.go:87-90 | a picked peer is in the list, so it has a getter, and has a virtual node where the key leads |
| `Routing.CollisionsReturn` | http.go:81-92 | whenever two peers share a point, two nodes that list the same peers in different orders forward any key that leads there to each other |
| `Routing.OneHopExactly` | http.go:81-92 | Gets take at most one hop in every cluster that lists the same peers, in any orders, if and only if different peers share no point |
| `Forwarding.RunInv` | groupcache.go:191-237 | over every run, each node's unfinished load of the key is the one its loader has, and it waits only for a call of the peer its node picks |
| `Forwarding.OneCallPerNode` | groupcache.go:191-209 | in every reachable state a node has at most one unfinished load of the key, so a Get that comes back is not forwarded again |
| `Forwarding.ArrivalStarts` | groupcache.go:191-237 | a Get that finds no load at its node starts one, forwarded if and only if the node picks a peer |
| `Forwarding.AnswersBack` | groupcache.go:219-237 | a peer's value or "not found" is final, its error falls back to the local load |
| `Forwarding.NoCycleExactly` | groupcache.go:191-237 | no cycle of loads that wait for each other is reachable, in any cluster listing the peers and for any key, if and only if different peers share no point |
| `Forwarding.CycleStays` | groupcache.go:205-213 | without a wait limit, a cycle of waits stays over every run and none of its loads is ever done, unless a connection breaks |
| `Forwarding.CycleCatches` | groupcache.go:191-209 | every Get that reaches a node of the cycle joins its load |
| `Forwarding.FinishExactly` | groupcache.go:205-268 | at every reachable state every load can finish without the help of a cache hit or a broken connection, in any cluster listing the peers and for any key, if and only if waits are limited or different peers share no point |
| `Pools.HTTPPool.Set` | http.go:70-79 | afterwards the pool routes as a node with exactly this list, and every listed peer has its getter |
| `Pools.HTTPPool.PickPeer` | http.go:81-92 | picks the ring's owner with its own getter, or nothing if and only if there is no owner other than the node itself |
| `Bloom.RunExact` | bloomfilter/bloomfilter.go:41-74 | after any run the set bits are exactly the positions of the items added since the last reset |
| `Bloom.NoFalseNegatives` | bloomfilter/bloomfilter.go:41-90 | after any run an item added since the last reset is contained if and only if the filter has a bit |
| `Bloom.IndexesExactly` | bloomfilter/bloomfilter.go:76-90 | an item's positions, for any hashes: from the first hash on, each 32-bit number is the one before plus the second hash, or plus 1 if that is 0, taken modulo the length |
| `Bloom.BloomFilter.constructor` | bloomfilter/bloomfilter.go:22-33 | an empty filter; sizes that are not positive become the defaults; adds and lookups have a length to work with if and only if the size is not a multiple of 2^32 |
| `Bloom.BloomFilter.IndexList` | bloomfilter/bloomfilter.go:76-90 | the positions by double hashing with 32-bit wrap-around, length and count truncated to 32 bits |
| `Bloom.BloomFilter.Add` | bloomfilter/bloomfilter.go:41-50 | exactly the item's positions are set in addition |
| `Bloom.BloomFilter.Contains` | bloomfilter/bloomfilter.go:53-65 | true if and only if the filter has bits and all the item's positions are set |
| `Bloom.BloomFilter.Reset` | bloomfilter/bloomfilter.go:68-74 | no position is set |
| `FilterGateModel.RunInv` | groupcache_filter.go:28-67 | every careful run, with any number of overlapping warmups, keeps recorded keys in the filter and every job's loaded keys recorded or still ahead of it |
| `FilterGateModel.GateSound` | groupcache_filter.go:37-67 | over every run whose resets spoil no job, with adds, warmups and ticks interleaved freely, no key added since the last reset and no key of the last successful warmup is rejected |
| `FilterGateModel.RejectsExactly` | groupcache_filter.go:37-44 | after every run a key is rejected if and only if the gate is ready and some position of the key is that of no key added since the last reset |
| `FilterGateModel.NotedStaysAdmitted` | groupcache_filter.go:28-36 | a key that is added is admitted until the next reset, whatever warmups do |
| `FilterGateModel.WarmupArms` | groupcache_filter.go:46-67 | a warmup that loads all its keys leaves the gate ready and its keys kept for refreshes and admitted |
| `FilterGateModel.WaitingIsCareful` | groupcache_filter.go:46-67 | runs without a reset during a job are of this kind, however warmups overlap |
| `FilterGateModel.ResetExactly` | groupcache_filter.go:92-98 | at every state, the promise survives a reset, whatever follows up to the next one, if and only if the reset spoils no job |
| `FilterGateModel.FailedRefreshOpens` | groupcache_filter.go:92-98 | a refresh rejects nothing while it loads, and nothing after a failed load until another warmup or refresh starts |
| `FilterGateModel.OverlapLoses` | groupcache_filter.go:125-130 | at every state with a warmup that has loaded everything but not declared the gate ready, a reset in between makes the gate reject every key of the last successful warmup |
| `FilterGateModel.OverlapReached` | groupcache_filter.go:46-98 | a run reaches such a state |
| `FilterGates.FilterGate.Warmup` | groupcache_filter.go:46-67 | the loop and its end are a run of the gate's steps; it reports whether every load succeeded |
| `FilterGates.FilterGate.Refresh` | groupcache_filter.go:92-98 | one tick is a run of the gate's steps, and none without kept keys |
| `FilterGates.FilterGate.Rejects` | groupcache_filter.go:37-44 | rejects exactly when ready and not contained |
| `FilterGates.ScriptEnds` | groupcache_filter.go:46-67 | a warmup run to its end with no other job is careful, whichever loads fail, and leaves no job |
| `FilterGates.RefreshCareful` | groupcache_filter.go:92-98 | so is a whole refresh, from its tick on |
| `GroupModel.NextTTLBounds` | groupcache.go:358-373 | the TTL is positive and within the jitter of the base |
| `GroupModel.RunGood` | groupcache.go:82-451 | every run, for any number of shards, keeps each cache at its keys' last writes, the expiry bounds of active, negative and stale entries and the pairing of active and stale |
| `GroupModel.BoundedStaleness` | groupcache.go:284-296 | after any run the timeout path serves the live active entry, which is the key's last write, at most base + jitter old; else the live stale one, the last value written, never "not found", at most base + jitter + stale TTL old, and the key's last write if and only if that is not a "not found"; else nothing |
| `GroupModel.NegativeLeavesStale` | groupcache.go:239-249 | after a value and then "not found", whenever the stale entry is live and the active one is not, the timeout path serves the older value |
| `GroupModel.StaleOutlivesNegative` | groupcache.go:239-296 | with an unlimited stale cache that is the case from the end of the "not found" to the end of the stale copy |
| `GroupModel.StaleIsACopy` | groupcache.go:375-391 | when both caches hold a key and the active entry is not negative, the values are equal and the stale one expires at least the stale TTL later |
| `GroupModel.InvalidateHides` | groupcache.go:443-451 | after an invalidation neither cache serves the key until it is written again |
| `GroupModel.ReadIsFresh` | groupcache.go:82-107 | after any run, a Get answers a live hit from the cache, with the key's last write, at most base + jitter old or the negative TTL if "not found"; a miss, and only a miss, with what a source answers now; an error only for the empty key or if no source answers a miss |
| `GroupReads.ReadTakes` | groupcache.go:82-107 | a Get records nothing on a hit; on a miss, the value a source gives, due after the drawn TTL or never with no base TTL, with a copy due later in the stale cache if that is kept; a "not found" for its own TTL, if enabled; nothing on a failure; and never another key |
| `GroupReads.FillTakes` | groupcache.go:338-351 | the same of a single fill |
| `GroupReads.NotFoundTakes` | groupcache.go:239-249 | and of a "not found" |
| `GroupReads.HeldFound` | groupcache.go:91-101 | a resident entry is found exactly until its record is due |
| `GroupReads.GetThenGet` | groupcache.go:82-107 | after a Get that loaded a value, while its entry is resident, a Get answers that value until it is due, for ever with no base TTL, whatever the sources say by then |
| `GroupReads.UnlimitedGetThenGet` | groupcache.go:82-107 | in an unlimited cache the entry is resident |
| `GroupReads.WriteHeld` | sharded.go:42-48 | a write to a cache is resident if and only if it fits behind the protected entries of the key's own shard |
| `GroupReads.InvalidateTakes` | groupcache.go:443-451 | an invalidation takes the key, and nothing else, out of both records |
| `GroupReads.QuietTakesNothing` | groupcache.go:284-296 | lookups, the timeout path and the janitor record nothing |
| `GroupReads.JanitorClears` | groupcache_maintenance.go:17-25 | one firing of the janitor leaves nothing expired in any store of either cache, and spares what is not |
| `GroupModel.IncrementForm` | groupcache.go:157-166 | an increment without a backend, with its three clock readings, is a lookup followed by a fill, so the freshness results cover it |
| `GroupModel.IncrementReads` | groupcache.go:157-166 | its answer is the delta added to the key's last write if that is live, to 0 if not, and a refusal exactly if that write is no number |
| `GroupReads.IncrementTakes` | groupcache.go:157-166 | an increment that counts records its answer's text as a fill does, one that is refused records nothing |
| `Groups.Group.constructor` | groupcache_config.go:195-241 | the settings the options give, empty caches, sharded or not, and a stale cache if and only if stale and base TTL are positive |
| `Groups.Group.Get` | groupcache.go:82-107 | caches and reply change as the model's Get; the reply is as fresh as ReadIsFresh says, and the caches record what ReadTakes says |
| `Groups.Group.Load` | groupcache.go:191-237 | a peer's value or "not found" is final, any other peer error falls back to the local load; what is answered is recorded |
| `Groups.Group.GetLocally` | groupcache.go:325-352 | filter rejection, getter error, "not found" and value paths, each with what it records |
| `Groups.Group.Fill` | groupcache.go:338-351 | the value goes to the active cache and, when it expires there, to the stale cache for longer |
| `Groups.Group.CacheNegative` | groupcache.go:239-249 | a negative entry in the active cache only, if enabled |
| `Groups.Group.DegradeFromCaches` | groupcache.go:284-296 | the active answer if there is one, else the stale one, each within its age bound |
| `Groups.Group.InvalidateLocal` | groupcache.go:443-451 | the key leaves both caches and neither path serves it |
| `Groups.Group.IncrementLocally` | groupcache.go:141-166 | the empty key is refused; otherwise the active cache's increment, then the stale copy, with the answer of IncrementReads and the records of IncrementTakes |
| `Groups.Group.ClearupExpired` | groupcache_maintenance.go:17-25 | both caches are swept, every shard of them, and cleared of what has expired |
| `GatedGroup.RunGood` | groupcache.go:82-451 | every careful run of a group and its gate together keeps both invariants |
| `GatedGroup.NeverTurnedAway` | groupcache.go:325-356 | after any such run, a Get of a key warmed up, or written since the last reset, is answered as if there were no gate |
| `GatedGroup.WrittenStaysAdmitted` | groupcache.go:298-352 | a key that a load, a peer answer or an increment wrote stays admitted until the next reset, even after its entry is gone from the caches |

## Left out

- List elements are values: the map's pointer to an element is modelled as a segment tag (or membership) plus the key, so identity and aliasing of elements are not captured.
- LruCaches.LruCache.AddWithTTL: asks for a capacity that is not negative, because the program's loop does not end for a negative one (LruModel.LoopEnds).
- Caches.Cache.constructor: asks for the same when the store is a plain LRU.
- Storages.Storage.constructor: asks for the same when there is one plain LRU store.
- Groups.Group.constructor: asks for the same when its caches are such.
- SlruModel.ProtectedMaxBounds: the ratio is a real number, so float rounding and NaN ratios are not captured.
- Byte counters, TTL sums and clock values are unbounded integers; only counter values wrap at 64 bits.
- Text is one character per byte.
- Hashes are arbitrary functions (CRC-32 and FNV are not modelled); their quality and the likelihood of collisions are not discussed. Only djb33 is computed.
- Bloom.BloomFilter.Add: asks for a length that is not a multiple of 2^32, because the program divides by the length truncated to 32 bits and panics.
- Bloom.BloomFilter.Contains: asks for the same.
- Ring with a negative number of replicas, which behaves as none.
- DurableIncrements.CacheMatchesBackend: the backend applies an increment fully or not at all, and there are no concurrent loads or outside backend writes, with which the agreement does not hold.
- GroupModel.RunGood: operations of a group follow one another; an invalidation that races with a load in flight is not covered, since the load may write after it.
- GroupModel.StaleIsACopy: for overlapping increments without a backend it does not hold (LocalIncrements.OverlapExactly).
- LocalIncrements.SerialCopies: no loads or other writes of the key run beside the increments, and expiry is a key lost at any time.
- Forwarding.FinishExactly: one key, fixed peer lists; no panics, which SingleflightProgress has, and no cancellation of the clients' requests.
- Groups.Group.Get: the wait timeout, context cancellation and singleflight around the load are parameters or separate models; the filter's answer is a parameter here and comes from the gate in GatedGroup.
- GatedGroup.NeverTurnedAway: a Get, with the filter's answer and the add that follows its load, is one step; the gate's own steps happen between such steps.
- Fairness, timers and scheduling: only safety, and the absence of stuck completions, are stated.
- Eviction callbacks that call back into the cache; a callback is an entry of a log.
- Routing and Forwarding cover Get; increments and invalidations sent to peers, HTTP transport, protobuf encoding and classifyPeerGetError are not modelled.
- stats.go, cmd/cache-server, Redis access, logging and caller-supplied caches (WithCache): plumbing, or behaviour that is not known.
- `Len`, `Add` without TTL (the same as a TTL of 0) and most option setters would only add easy members.
