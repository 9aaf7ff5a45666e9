# SafeCache: a Dafny model and its proofs

SafeCache keeps cached data correct while asynchronous reads, writes and invalidations interleave.
This project models its hard parts and proves what they promise.  `dafny verify dfyconfig.toml`
checks everything.

| file | what it models |
|---|---|
| `EpochTable.dfy` | the bounded map of invalidation epochs, as an object and as a function of the log of bumps |
| `EventDedup.dfy` | the id of a published event, and the bounded memory of processed ids |
| `FenceProtocol.dfy` | the epoch-fenced write and invalidate protocol of any number of instances, as a step system |
| `FenceSafety.dfy` | its inductive invariant, and safety of the shared last layer over every run |
| `FenceTags.dfy` | invalidation by tag: every instance's pass over the keys that the tag resolves to there |
| `FenceRemoval.dfy`, `FenceReach.dfy` | what an invalidation removes: every layer of an instance, and of every instance once settled |
| `FenceBackfill.dfy` | exactly which values a backfill stores although they are stale |
| `FenceProgress.dfy` | what is in flight always can go on, and always ends |
| `FenceLimits.dfy`, `FenceTraces.dfy` | exactly which layer and which window are fenced, and the runs that show it |
| `FenceTagLimits.dfy`, `FenceBackfillLimits.dfy` | exactly which keys of a tag are fenced, and the backfills that are not |
| `CacheReads.dfy` | reading through the layers, stale serving, lifetimes, and the age of served values over runs |
| `LruStore.dfy` | the contents of the memory provider as a value, LRU inclusion, and the plain map with expiry |
| `LruPromises.dfy` | what the calls alone promise about an answer: expiry and recency |
| `TagIndex.dfy` | the forward and reverse maps of the in-memory tag index, as an object over one relation |
| `MemoryProvider.dfy` | the memory provider and its tag index, updated in place |
| `CircuitBreaker.dfy` | the circuit breaker, as an object and over whole series of outcomes |
| `RedisLock.dfy`, `LockRenewal.dfy` | the token-fenced lock over all runs of clients and time, and the renewal loop of a holder |
| `SingleFlight.dfy` | single-flight, and the two slots that the cache uses per key |
| `Outbox.dfy`, `OutboxSafety.dfy`, `OutboxLimits.dfy` | the outbox lease protocol, and its guarantees with and without lease discipline |
| `OutboxAttempts.dfy`, `OutboxDispatch.dfy` | what an attempt makes of its row, and one poll as it runs |
| `ScopedKeys.dfy`, `DateCodec.dfy` | the scoped-name encoding and the date-aware tree encoding, with their decoders |
| `Options.dfy`, `Strings.dfy`, `Sets.dfy` | an option type, splitting at a separator, sizes of sets |

## How the concurrent parts are modelled

An asynchronous function is a process that runs to its next `await` in one step.  A provider `set`
or `delete` takes effect in one step somewhere between its call and its return; the claim statement
and each mark statement of the outbox are one step, and so is each Redis script.  A `Step` names what
happens next, `Enabled` says when it can, and `Apply` (or `After`) is the code that runs.  Every
theorem about runs quantifies over all sequences of enabled steps.

Steps of `FenceProtocol` and the code they stand for, all in `packages/core/src/cache.ts`:
`StartWrite` 313-314, `FetchDone` and `GiveUp` 314-337, `CompareEpoch` 435-437, 452-454 and 473-475,
`SetEffect` and `SetSkipped` 455-466 (an open breaker, a newer version or a rejected `set` skips the
layer), `CompensatingDelete` 474, `InvalidateKey` 206-210, `InvalidateTag` 227-240, `DeleteEffect`
652-655, `DeleterDone` 218-224 and 242-258 (the next key of a tag's snapshot, and publishing the event
of a key or of a tag), `Deliver` 783-796, `StartRead` and the layer reads 96-102 and 273-287,
`StartBackfill` 505-517, `BackfillSet` 518-523.  `Vanish` is a provider dropping an entry on its own.
What a tag resolves to on an instance is arbitrary, and may differ between instances.

A value is outdated when its fetch began before the invalidation of its key was issued anywhere, or
before its own instance bumped the key, or before the invalidation of a tag was issued anywhere for
which its own instance has begun a pass over a snapshot with the key.  Values remember how long the
logs of bumps and invalidations were when their fetch began; the code does not look at this.

## Where the code does less than it says

- The comment at `packages/core/src/cache.ts:60-63` promises that a racing write is fenced out.  That
  is so for the last layer only: the return at lines 452-454 leaves what was already written.
  `FenceLimits.FencedExactly` says for which layer and window it holds.
- The comment at `packages/core/src/cache.ts:512-513` promises that a backfill does not re-warm upper
  layers with what an invalidation removed.  `FenceBackfill.BackfillStoresStaleExactly` says when it
  does: for a bump after the one comparison (`FenceBackfillLimits.BackfillCanLeaveStale`), and for a bump
  between the value's fetch and the start of the read
  (`FenceBackfillLimits.BackfillBehindBumpCanLeaveStale`), because a read that starts between a bump and
  the delete from the last layer captures the bumped epoch.
- The comment at `packages/core/src/cache.ts:233-237` says that a write which adds a new key under a tag
  during its invalidation either is fenced or is newer.  A key outside the snapshot is not bumped: a
  value that was fetched before the invalidation, and whose write is under way when the snapshot is
  taken, stays, on the issuing instance (`FenceTagLimits.OwnTagCanLeaveStale`) and on a peer that replays it
  (`FenceTagLimits.PeerTagCanLeaveStale`).  `FenceTagLimits.TagFencedExactly` says for which keys it is fenced.
- The comment at `packages/core/src/tag-index.ts:3-8` says that the delimiter keeps scope "a" with key
  "b\0c" apart from scope "a\0b" with key "c".  The two have the same composite
  (`TagIndex.DelimiterInScopeCollides`); `TagIndex.ScopesCollideExactly` says when two scopes collide.
- The comment at `packages/core/src/circuit-breaker.ts:55` speaks of exactly one trial probe.  Any number
  of callers is let through while half-open (`CircuitBreakers.AnyNumberOfProbes`);
  `CircuitBreakers.OneProbeExactly` says when it is one.
- The comment at `packages/core/src/cache.ts:810-812` says that only the last 1000 event ids are kept.
  An empty id is never evicted once it is the oldest, nor is any id after it
  (`EventDedup.EmptyIdStopsEviction`); `EventDedup.MemoryIsRecentExactly` says when the last 1000 are
  what is kept.
- The outbox documentation speaks of at-least-once redelivery.  Without lease discipline a row can
  run out of retries unprocessed (`OutboxLimits.StrandsExactlyAboveOne`).

## Model

| member | source | states |
|---|---|---|
| `EpochTable.EpochStamps.CurrentEpoch` | packages/core/src/cache.ts:176-178 | the epoch read is the one that the log of all bumps so far leaves behind |
| `EpochTable.EpochStamps.BumpEpoch` | packages/core/src/cache.ts:186-199 | a bump extends the log by the key, the map stays the one the log leaves behind, and it never exceeds 5000 entries |
| `EpochTable.StampIsLatestBump` | packages/core/src/cache.ts:186-188 | a positive epoch is the position of the latest bump of the key |
| `EpochTable.EqualEpochMeansNoBump` | packages/core/src/cache.ts:176-199 | two equal readings mean no bump in between, always for a positive epoch, and for epoch 0 across at most 5000 bumps |
| `EpochTable.NoBumpKeepsEpochOrEvicts` | packages/core/src/cache.ts:180-199 | without a bump the epoch stays, or reads 0 after an eviction |
| `EpochTable.EpochZeroWindowIsExact` | packages/core/src/cache.ts:40-42 | the fence of a write that captured epoch 0 is sound over windows of a given length if and only if the length is at most 5000 |
| `EpochTable.RebumpDoesNotProtect` | packages/core/src/cache.ts:186-199 | the oldest key is evicted by the next new key even if it was bumped again just before, because a bump does not renew its place |
| `EventDedup.MintIdInjective` | packages/core/src/cache.ts:832-838 | equal event ids have the same source, time and counter |
| `EventDedup.SeenEvents.HasSeenEvent` | packages/core/src/cache.ts:805-820 | an id is reported unseen, and remembered, exactly when the memory left by all arrivals before does not hold it |
| `EventDedup.DuplicateIsDropped` | packages/core/src/cache.ts:810-812 | a duplicate within the next 1000 arrivals of a processed event is not processed again |
| `EventDedup.MemoryIsBounded` | packages/core/src/cache.ts:813-818 | without empty ids the memory holds at most 1000 ids |
| `EventDedup.DedupDistanceIsExact` | packages/core/src/cache.ts:810-812 | no duplicate at a given distance from a processed event is ever processed again, if and only if the distance is at most 1000 |
| `EventDedup.MemoryIsRecentExactly` | packages/core/src/cache.ts:805-820 | the memory holds at most 1000 ids, and is the last 1000 processed ones, if and only if every empty id that was processed is among the last 1000 |
| `EventDedup.EmptyIdStopsEviction` | packages/core/src/cache.ts:813-818 | once an empty id is the oldest, nothing is ever forgotten again |
| `FenceSafety.CompareEpochKeeps` | packages/core/src/cache.ts:450-475 | comparing epochs, before a layer or at the end, keeps the invariant: a write that was overtaken does not get past the final comparison |
| `FenceSafety.SetEffectKeeps` | packages/core/src/cache.ts:458-458 | a `set` that takes effect late keeps the invariant: if its value is stale, its writer will compensate or an event is on its way |
| `FenceSafety.InvalidateKeyKeeps` | packages/core/src/cache.ts:201-210 | bumping and starting to delete in one step keeps the invariant on every instance |
| `FenceSafety.DeliverKeeps` | packages/core/src/cache.ts:782-796 | delivering the event of a key or of a tag, for the first time or again, keeps the invariant |
| `FenceSafety.DeleterDoneKeeps` | packages/core/src/cache.ts:218-259 | ending or publishing an invalidation, or going on to the next key of a tag's snapshot, keeps the invariant |
| `FenceSafety.StepKeeps` | packages/core/src/cache.ts:201-524 | every step of every process keeps the invariant |
| `FenceSafety.StaleValueIsAboutToBeRemoved` | packages/core/src/cache.ts:469-475 | at every moment of every run a stale value in the shared layer has a running deleter, an event its instance has yet to replay, or a writer about to compensate |
| `FenceSafety.SettledSharedLayerIsFresh` | packages/core/src/cache.ts:201-225 | once nothing is in flight and every event has reached every other instance, the shared layer holds no value whose fetch began before an invalidation of its key was issued by any instance, or before its own instance bumped the key for a tag or for a peer |
| `FenceTags.StepInvariant` | packages/core/src/cache.ts:227-259 | every step keeps that each pass has bumped, or has yet to bump, every key of its snapshot, and begins after every fetch that precedes its invalidation |
| `FenceTags.SettledTagsAreFresh` | packages/core/src/cache.ts:227-259 | once settled, the shared layer holds no outdated value: none fetched before the invalidation of a tag, by any instance, that the value's own instance passed over with the key in its snapshot |
| `FenceRemoval.InvalidationEmptiesEveryLayer` | packages/core/src/cache.ts:645-655 | in every run, once the deletion that an invalidation starts has ended, the key is in no layer of the instance, be the invalidation its own, the replay of a peer's, or a tag's whose snapshot holds the key, if nobody has been writing the key or reading it there |
| `FenceRemoval.CompensationLeavesNothing` | packages/core/src/cache.ts:473-475 | in every run, a write that finds its epoch changed after the last layer leaves what it fetched in no layer, if nobody reads the key there meanwhile |
| `FenceReach.InvalidationReachesEveryInstance` | packages/core/src/cache.ts:201-225 | in every run, once everything has settled an invalidated key is in no layer of any instance, if nobody has been writing or reading it |
| `FenceReach.RedeliveryChangesNothing` | packages/core/src/cache.ts:783-796 | an event delivered again to an instance, after fewer than 1000 other deliveries to it, changes nothing at all |
| `FenceProgress.MovingStepUsesWork` | packages/core/src/cache.ts:424-476 | every step that carries on a write, invalidation, read or first delivery lowers a natural number, also when it publishes an event or starts a pass over at most so many keys |
| `FenceProgress.MovingRunIsBounded` | packages/core/src/cache.ts:424-524 | whatever is in flight ends after a number of steps, in any interleaving, that is bounded once the size of the snapshots is |
| `FenceProgress.AtRestExactly` | packages/core/src/cache.ts:201-524 | no deadlock: nothing can go on if and only if every operation has ended and every event is delivered |
| `FenceProgress.InFlightEndsFresh` | packages/core/src/cache.ts:469-475 | from every reachable state, what is in flight ends within that bound, and then the shared layer holds no outdated value |
| `FenceBackfill.StepKeepsReaders` | packages/core/src/cache.ts:96-102 | every step keeps that each reader's epoch is that of its capture, and still was at its comparison, and that every value held anywhere was fetched before |
| `FenceBackfill.BackfillStoresStaleExactly` | packages/core/src/cache.ts:498-524 | in every run, of the values fetched on the reader's own instance and compared within the window, a backfill stores one whose key was bumped since its fetch if and only if the bump fell between the fetch and the capture of the epoch, or after the comparison |
| `FenceBackfillLimits.BackfillCanLeaveStale` | packages/core/src/cache.ts:498-524 | for every layer but the last there is a settled moment at which one backfill step puts a stale value into that empty layer, although no write was overtaken: the key was bumped after the comparison |
| `FenceBackfillLimits.BackfillBehindBumpCanLeaveStale` | packages/core/src/cache.ts:96-102 | the same happens without any bump since the read began: it began between a bump and the delete from the last layer |
| `FenceLimits.UpperLayerCanStayStale` | packages/core/src/cache.ts:451-454 | for every layer but the last there is a run that leaves a stale value there for good |
| `FenceLimits.LastLayerCanStayStale` | packages/core/src/cache.ts:186-199 | with one bump more than the map holds there is a run that leaves a stale value in the last layer |
| `FenceLimits.FencedExactly` | packages/core/src/cache.ts:424-476 | a layer holds no outdated value in any settled run, if and only if it is the last one and comparisons stay within 5000 bumps |
| `FenceTagLimits.PeerTagCanLeaveStale` | packages/core/src/cache.ts:227-259 | for any two instances there is a settled run in which one invalidates a tag that resolves to the key, the other replays it over a given snapshot without the key while a write of the key calls `set` there, and that value, fetched before, stays |
| `FenceTagLimits.OwnTagCanLeaveStale` | packages/core/src/cache.ts:233-246 | the same on the issuing instance: the invalidation takes its snapshot, without the key, while a write of the key calls `set`, and that value stays |
| `FenceTagLimits.TagFencedExactly` | packages/core/src/cache.ts:233-246 | the invalidation of a tag fences a key on an instance, against every fetch that began before it, if and only if the key is in the snapshot of that instance's own pass |
| `CacheReads.ReadLayers` | packages/core/src/cache.ts:268-301 | the result is the one that the run theorems below are about: that of the first layer with an unexpired or stale-servable entry, or with a failure when reads do not fail open, classified by that layer's own clock reading, and a miss if and only if there is none or the breaker is open |
| `CacheReads.StoredCopyOutlivesEntry` | packages/core/src/cache.ts:319-346 | a copy stored at any later time is kept until its expiry and until the end of its stale window, and beyond the later of the two by exactly the time that storing took |
| `CacheReads.FreshThenStaleThenGone` | packages/core/src/cache.ts:319-346 | a fetched entry is classified as a hit strictly before its lifetime is over, then as stale strictly before the window its query asked for is over, the lifetime for `true` and the given duration otherwise, and then as a miss |
| `CacheReads.StaleTakesOwnWindow` | packages/core/src/cache.ts:552-573 | an entry can be served stale if and only if the reader's and the cache-wide options allow it and the entry's own query asked for a window and got one of some length |
| `CacheReads.ServedValuesAreInTime` | packages/core/src/cache.ts:96-117 | in every run that serves what the classification of the layers says, a value served was fetched for that key and, when it was looked at, was younger than its lifetime, or than its stale window where stale values may be served, and never stale under "strict" |
| `CacheReads.StaleWasAskedFor` | packages/core/src/cache.ts:559-564 | in every run a value served stale was asked for by the reader's own option, neither `false` nor 0, or by the cache-wide option where the reader gave none, and not under "strict" |
| `CacheReads.ServesExactly` | packages/core/src/cache.ts:104-117 | a fresh hit is served, a stale one exactly when the options ask for it, and nothing otherwise |
| `CacheReads.CopiesLastLongEnough` | packages/core/src/cache.ts:498-524 | in every run no copy, written or backfilled, is given up before its entry's original expiry |
| `CacheReads.WrittenCopyOutlivesStaleWindow` | packages/core/src/cache.ts:331-346 | in every run a copy stored by a write physically outlives its stale window |
| `CacheReads.RefilledCopyKeepsExpiry` | packages/core/src/cache.ts:505-523 | a backfilled copy is the same entry, kept beyond its original expiry by exactly the time the backfill took |
| `LruStore.LruInclusion` | packages/memory/src/index.ts:33-107 | fed the same calls, the provider of smaller capacity holds a subsequence of what the larger one holds, and lags behind by at most the difference of the capacities |
| `LruStore.CallKeepsInclusion` | packages/memory/src/index.ts:72-108 | each single call keeps that inclusion |
| `LruStore.BoundedAnswersAgree` | packages/memory/src/index.ts:72-82 | every hit of the smaller provider is the same hit in the larger one |
| `LruStore.UnboundedIsPlainMap` | packages/memory/src/index.ts:52-56 | without a capacity the provider is the plain map with expiry |
| `LruStore.BoundedOnlyMisses` | packages/memory/src/index.ts:52-67 | a bounded provider differs from the plain map only by missing |
| `LruPromises.AnswersAreUnexpired` | packages/memory/src/index.ts:40-50 | whatever the capacity, a value answered was set by the last `set` of the key, less than its lifetime ago, and the key was not deleted since |
| `LruPromises.UnboundedAnswersExactlyUnexpired` | packages/memory/src/index.ts:72-100 | without a capacity, on a clock that does not go back, a value is answered if and only if it is the last one set and its lifetime is not over |
| `LruPromises.LookupDropsExpired` | packages/memory/src/index.ts:40-50 | a lookup drops its key if that has expired, and nothing else |
| `LruPromises.ZeroCapacityIsNone` | packages/memory/src/index.ts:52-56 | a capacity of 0 is no capacity |
| `LruPromises.RecentlyUsedIsAnswered` | packages/memory/src/index.ts:72-100 | a key that was set or found is still answered after any calls that use fewer other keys than the capacity and do not overwrite it, until its expiry |
| `LruPromises.EvictedExactlyByCapacity` | packages/memory/src/index.ts:52-67 | when only other keys are stored after the last use of a key, it is kept if and only if they are fewer than the capacity |
| `TagIndex.ScopesCollideExactly` | packages/core/src/tag-index.ts:3-13 | two scopes share a composite if and only if one continues the other with the delimiter |
| `TagIndex.DelimiterInScopeCollides` | packages/core/src/tag-index.ts:3-8 | the pair that the comment says is kept apart has one composite |
| `TagIndex.CompositeInjective` | packages/core/src/tag-index.ts:11-13 | composites of scopes without the delimiter are equal only for equal scope and value |
| `TagIndex.RelationDecidesForward` | packages/core/src/tag-index.ts:16-18 | the relation alone decides the forward map |
| `TagIndex.RelationDecidesReverse` | packages/core/src/tag-index.ts:16-18 | the relation alone decides every reverse lookup |
| `TagIndex.TaggedExactly` | packages/core/src/tag-index.ts:33-108 | after any series of calls the relation that the index maintains holds a key and a tag if and only if some call gave the key the tag and no later call took it |
| `TagIndex.InMemoryTagIndex.AddTags` | packages/core/src/tag-index.ts:33-51 | for any scope exactly the addressed sets gain the key and the tags; while no scope contains the delimiter, both maps encode the relation with exactly (scope, key, tag) added for each tag |
| `TagIndex.InMemoryTagIndex.GetKeysByTag` | packages/core/src/tag-index.ts:54-56 | the keys at the address, which are exactly the related ones while no scope contains the delimiter |
| `TagIndex.InMemoryTagIndex.RemoveKey` | packages/core/src/tag-index.ts:64-84 | exactly the addressed sets lose the key and the tags, given or all; while no scope contains the delimiter the relation loses exactly those triples, and a bare removal drops the key's reverse entry |
| `TagIndex.InMemoryTagIndex.RemoveTag` | packages/core/src/tag-index.ts:91-108 | the tag's forward entry goes and exactly its keys' reverse sets lose the tag; while no scope contains the delimiter the relation loses every key under the tag |
| `MemoryProviders.MemoryTagIndex.AddTags` | packages/memory/src/index.ts:127-135 | tracks the scope; while no scope contains the delimiter, adds the triples and keeps every reverse entry covered by a tracked scope |
| `MemoryProviders.MemoryTagIndex.RemoveKey` | packages/memory/src/index.ts:137-146 | exactly the addressed sets lose the key, and the scope is forgotten on a bare removal only; while no scope contains the delimiter, the triples go and the coverage survives |
| `MemoryProviders.MemoryTagIndex.RemoveKeyFromAllScopes` | packages/memory/src/index.ts:153-162 | the tracking forgets the key; while no scope contains the delimiter, every triple of the key is gone, in every scope, and no other |
| `MemoryProviders.MemoryTagIndex.Clear` | packages/memory/src/index.ts:169-176 | the tracking is empty; while no scope contains the delimiter, so are the relation and both maps |
| `MemoryProviders.MemoryProvider.Get` | packages/memory/src/index.ts:72-82 | answers what the calls so far promise: only the last value set, before its expiry, and without a capacity always that; moves a live key to the end, and drops an expired one, with exactly its tags while no scope contains the delimiter |
| `MemoryProviders.MemoryProvider.Set` | packages/memory/src/index.ts:83-100 | stores at the end, evicts the least recently used beyond the capacity, or drops the key when the lifetime is not positive, purging exactly the dropped keys' tags while no scope contains the delimiter |
| `MemoryProviders.MemoryProvider.EnforceMaxEntries` | packages/memory/src/index.ts:52-67 | the eviction loop leaves exactly the most recently used items, and purges exactly the evicted keys' tags while no scope contains the delimiter |
| `MemoryProviders.MemoryProvider.Delete` | packages/memory/src/index.ts:101-104 | drops the key, with exactly its tags while no scope contains the delimiter |
| `MemoryProviders.MemoryProvider.Clear` | packages/memory/src/index.ts:105-108 | values and tracking are empty, and so are all tag maps while no scope contains the delimiter |
| `MemoryProviders.DroppedKeyHasNoTags` | packages/memory/src/index.ts:40-67 | in every run, from the moment a key is deleted, evicted or found expired until it is tagged again, no tag in any scope leads to it |
| `MemoryProviders.TaggedUntilDropped` | packages/memory/src/index.ts:40-67 | in every run a key has a tag if and only if it was given the tag and since then neither was the tag taken nor the key dropped: dropping one key takes the tags of no other |
| `MemoryProviders.TagsNeverDangle` | packages/memory/src/index.ts:115-122 | in every run that tags only stored keys, every tag points at a stored key |
| `MemoryProviders.IndexedKeysFit` | packages/memory/src/index.ts:52-67 | in every such run the indexed keys are no more than the capacity |
| `CircuitBreakers.CircuitBreaker.State` | packages/core/src/circuit-breaker.ts:44-61 | the state answered, and the step of the run theorems below that reading it takes: from an elapsed open window to half-open |
| `CircuitBreakers.CircuitBreaker.IsOpen` | packages/core/src/circuit-breaker.ts:63-65 | true exactly when the state answered is open, so that a half-open breaker lets its caller through |
| `CircuitBreakers.CircuitBreaker.RecordSuccess` | packages/core/src/circuit-breaker.ts:68-86 | every field ends as in the outcome step that the run theorems below are about: half-open to fresh, else one failure forgiven |
| `CircuitBreakers.CircuitBreaker.RecordFailure` | packages/core/src/circuit-breaker.ts:88-113 | every field ends as in the outcome step that the run theorems below are about: half-open or threshold reached to a new open window, else one failure more, counted from 1 when the last window is over |
| `CircuitBreakers.CounterIsWorstSuffix` | packages/core/src/circuit-breaker.ts:77-107 | up to the first trip the counter is the largest excess of failures over successes in any suffix |
| `CircuitBreakers.TripsExactlyOnBadRun` | packages/core/src/circuit-breaker.ts:68-113 | within one reset window a fresh breaker trips if and only if some contiguous run has at least the threshold more failures than successes |
| `CircuitBreakers.DefaultsTripAtFive` | packages/core/src/circuit-breaker.ts:19-37 | without the option nothing trips; with `true`, or an object that leaves the fields out, failures within 30 seconds trip it if and only if there are five |
| `CircuitBreakers.TripNeedsBadRunInWindow` | packages/core/src/circuit-breaker.ts:99-112 | for any series and any clock, a trip needs a run of outcomes, from failure to failure and within one reset window, with at least the threshold more failures than successes |
| `CircuitBreakers.SpacedFailuresNeverTrip` | packages/core/src/circuit-breaker.ts:99-106 | failures at least a reset window apart never trip a threshold of 2 or more |
| `CircuitBreakers.BadRunAfterRestartNeedNotTrip` | packages/core/src/circuit-breaker.ts:99-106 | such a run need not trip the breaker when an earlier failure opened the window |
| `CircuitBreakers.FailuresExtend` | packages/core/src/circuit-breaker.ts:99-112 | an open breaker goes on counting: as many failures in a row as the threshold put its deadline off |
| `CircuitBreakers.OpenHolds` | packages/core/src/circuit-breaker.ts:44-113 | after a trip every read before the deadline is open, whatever is recorded, and the deadline never moves earlier |
| `CircuitBreakers.FirstOutcomeDecides` | packages/core/src/circuit-breaker.ts:72-97 | once half-open, after any number of reads, the first outcome decides: fresh, or open for a full window |
| `CircuitBreakers.TripToProbe` | packages/core/src/circuit-breaker.ts:54-97 | from a trip through the elapsed deadline to a failed probe, the breaker is open again for a full window |
| `CircuitBreakers.ProbesAreReadsFromDeadline` | packages/core/src/circuit-breaker.ts:44-61 | until an outcome is recorded, exactly the reads from the deadline on are answered half-open |
| `CircuitBreakers.OneProbeExactly` | packages/core/src/circuit-breaker.ts:54-60 | exactly one probe is let through if and only if exactly one read falls between the deadline and the first outcome |
| `CircuitBreakers.AnyNumberOfProbes` | packages/core/src/circuit-breaker.ts:54-60 | for every number, that many reads at the deadline are all let through |
| `CircuitBreakers.DisabledNeverOpens` | packages/core/src/circuit-breaker.ts:20-26 | a breaker that is not enabled stays closed and unchanged |
| `RedisLock.Acquire` | packages/locks/src/index.ts:47-53 | a handle is returned exactly when the key is not held; then the key holds the token for exactly the lifetime; and no lock of another key changes |
| `RedisLock.LockKeyInjective` | packages/locks/src/index.ts:48-48 | two keys have the same lock if and only if they are equal |
| `RedisLock.FirstAcquireSucceeds` | packages/locks/src/index.ts:47-53 | however other keys are locked, renewed and released, the first acquire of a key succeeds |
| `RedisLock.LockHandle.Renew` | packages/locks/src/index.ts:57-69 | reports and extends exactly when the token is still stored and scripts are available |
| `RedisLock.LockHandle.Release` | packages/locks/src/index.ts:70-79 | deletes exactly when the token is still stored and scripts are available |
| `RedisLock.HeldExactlyByOwnLease` | packages/locks/src/index.ts:22-80 | in every run a token holds its lock if and only if its own calls and time say so, whatever other clients do |
| `RedisLock.NoSecondHolder` | packages/locks/src/index.ts:47-53 | from a successful acquire until the holder's release or expiry no other acquire of the key succeeds |
| `RedisLock.StaleHandleIsHarmless` | packages/locks/src/index.ts:57-79 | a handle whose lease is over changes nothing |
| `RedisLock.ReleaseFreesLock` | packages/locks/src/index.ts:70-79 | a release ends the token's lease: the next acquire succeeds if the lease was alive, and nothing changes if it was not |
| `LockRenewal.IntervalFitsLifetime` | packages/core/src/cache.ts:381-383 | the renewal interval is below the lifetime if and only if the lifetime exceeds a second; it is at least a second, and half the lifetime from two seconds on |
| `LockRenewal.RecentRenewal` | packages/core/src/cache.ts:383-398 | on schedule, the acquisition or some renewal is always less than a lifetime old |
| `LockRenewal.LockContinuity` | packages/core/src/cache.ts:379-414 | with such a lifetime, and latencies that leave room for it, the holder's token is stored at every moment until release, for any length of the load |
| `LockRenewal.AliveAtRelease` | packages/core/src/cache.ts:383-414 | with a lifetime above a second and renewals in time, the holder's lease is alive when it comes to release the lock |
| `LockRenewal.ShortLifetimeLapses` | packages/core/src/cache.ts:383-383 | with a lifetime of a second or less the lock is gone by the first tick |
| `LockRenewal.LoadWithLock` | packages/core/src/cache.ts:348-422 | a load that holds the lock starts the timer and looks again before it fetches; however it ends, whatever others do meanwhile, the timer is stopped and the lock released, last and once; with scripts available and the release not rejected, the holder's token is gone from the server and the next acquire succeeds, unless the lease had lapsed, which renewals in time exclude; the origin is fetched at most once, and exactly when nothing usable was found; and exactly when the load throws |
| `SingleFlights.SingleFlight.Run` | packages/core/src/single-flight.ts:11-22 | joins the task in flight for the slot, or starts a new one there |
| `SingleFlights.SingleFlight.Settled` | packages/core/src/single-flight.ts:17-19 | settling clears exactly that slot |
| `SingleFlights.OneTaskPerSlot` | packages/core/src/single-flight.ts:4-22 | in every run at most one task runs per slot |
| `SingleFlights.OutcomesAreFinal` | packages/core/src/single-flight.ts:4-10 | an outcome never changes and a caller keeps its task |
| `SingleFlights.JoinersShareOutcome` | packages/core/src/single-flight.ts:11-15 | a call made while a task runs for its slot gets that task, which loads the same key |
| `SingleFlights.CallStartsExactlyWhenNoneRuns` | packages/core/src/single-flight.ts:8-22 | in every run a call starts a new task if and only if none runs for its slot, so also after the last one has settled |
| `SingleFlights.AtMostTwoLoads` | packages/core/src/cache.ts:545-557 | in every run at most two loads of a key run at a time, one in the foreground and one in the background |
| `OutboxSafety.ProcessedIsJustified` | packages/postgres-outbox/src/index.ts:312-405 | under any interleaving a row is processed only after a single attempt invalidated every one of its keys and tags, or its payload failed to map, or an attempt used up its retries |
| `OutboxSafety.ProcessedIsFinal` | packages/postgres-outbox/src/index.ts:551-594 | a processed row stays processed |
| `OutboxSafety.ProcessedIsNeverClaimed` | packages/postgres-outbox/src/index.ts:510-529 | no later claim returns a processed row |
| `OutboxSafety.LiveClaimsAreDisjoint` | packages/postgres-outbox/src/index.ts:73-82 | under lease discipline no two live workers have the same row pending |
| `OutboxSafety.NoRowIsStranded` | packages/postgres-outbox/src/index.ts:510-541 | under lease discipline an unprocessed row is below the cap, and claimable exactly once its lease, if any, is over |
| `OutboxSafety.RecordedFailureUsesRetry` | packages/postgres-outbox/src/index.ts:564-594 | under lease discipline each recorded failure lowers the sum of remaining retries |
| `OutboxSafety.RetriesPayForFailures` | packages/postgres-outbox/src/index.ts:57-64 | over a whole run remaining retries plus recorded failures never exceed what the inserted rows brought in |
| `OutboxSafety.FailuresAreBounded` | packages/postgres-outbox/src/index.ts:57-64 | a run records at most the cap of failures per inserted row |
| `OutboxAttempts.AttemptDecidesRow` | packages/postgres-outbox/src/index.ts:326-388 | under any interleaving, a recorded attempt ends its row if and only if it invalidated everything, or the payload did not map, or it was the last one allowed; it counts one retry unless it succeeded, releases the claim, and changes no other row |
| `OutboxAttempts.UnmappableIsNeverClaimedAgain` | packages/postgres-outbox/src/index.ts:332-347 | once a failed mapping is recorded, no later claim returns the row, whatever the cap |
| `OutboxAttempts.HeadIsNotPassedOver` | packages/postgres-outbox/src/index.ts:510-529 | the oldest unprocessed row below the cap is in every claim once its lease is over |
| `OutboxLimits.OverlapStrands` | packages/postgres-outbox/src/index.ts:326-352 | with a cap of 2 or more, two overlapping attempts leave a row unprocessed that no claim will ever return |
| `OutboxLimits.StrandsExactlyAboveOne` | packages/postgres-outbox/src/index.ts:57-64 | without lease discipline no run strands a row if and only if there is no cap, or it is 1, or it is positive and batches are empty |
| `OutboxLimits.LeaseStrandsExactlyBelowOne` | packages/postgres-outbox/src/index.ts:73-82 | with lease discipline no run strands a row if and only if there is no cap or it is at least 1 |
| `OutboxDispatch.ApplyOutboxInvalidation` | packages/postgres-outbox/src/index.ts:454-465 | the calls made are a prefix of the targets, all of them exactly when none throws |
| `OutboxDispatch.UniqueOf` | packages/postgres-outbox/src/index.ts:622-624 | the first occurrences, in order |
| `OutboxDispatch.TargetsAreKeysAndTags` | packages/postgres-outbox/src/index.ts:454-465 | the targets are exactly the payload's keys and tags, for the payload's tenant |
| `OutboxDispatch.TargetsHaveNoRepeats` | packages/postgres-outbox/src/index.ts:622-624 | no target occurs twice |
| `OutboxDispatch.UniqueKeepsOrder` | packages/postgres-outbox/src/index.ts:622-624 | distinct values come in the order of their first occurrences |
| `OutboxDispatch.KeysComeFirst` | packages/postgres-outbox/src/index.ts:454-465 | every key is invalidated before any tag |
| `OutboxDispatch.PollRecordsEachRow` | packages/postgres-outbox/src/index.ts:315-405 | each row of a poll ends as its own attempt demands, dead-lettered when its payload does not map or its retries are used up, and no other row is touched |
| `OutboxDispatch.DeadLetteredCountsDeaths` | packages/postgres-outbox/src/index.ts:343-347 | the counter is the number of rows that were given up |
| `OutboxDispatch.Dispatch` | packages/postgres-outbox/src/index.ts:315-405 | each row is recorded as its attempt demands and no other row changes, the counters are the numbers of rows that succeeded and that were given up and the rest failed, and with propagation the poll throws exactly at the first cache failure |
| `ScopedKeys.DecodeEncode` | packages/core/src/keys.ts:8-10 | decoding one component inverts the two-pass escape |
| `ScopedKeys.ParseScoped` | packages/core/src/keys.ts:12-22 | a decoder recovers kind, namespace, tenant and key or tag from any scoped name |
| `ScopedKeys.PlainNamesReadAsDocumented` | docs/namespaces-and-tenants.md:40-46 | components without "%" and ":" stand in a name as they are, in the documented layout |
| `ScopedKeys.ScopedInjective` | packages/core/src/keys.ts:1-22 | two scoped names are equal if and only if kind and components are, an empty tenant counting as none |
| `ScopedKeys.PrefixInjective` | packages/core/src/keys.ts:24-27 | two scope prefixes are equal if and only if namespace and tenant are |
| `ScopedKeys.SlotsDisjoint` | packages/core/src/cache.ts:550-551 | a background refresh never shares a slot with a foreground load, and refresh slots of different keys differ |
| `DateCodec.RoundTrip` | packages/serializers/src/index.ts:42-82 | decoding an encoded tree gives the tree back, whatever keys its records use |
| `DateCodec.PlainTreeUnchanged` | packages/serializers/src/index.ts:42-58 | a tree without dates, marker keys and escaped keys is encoded as it is |
| `DateCodec.EscapeInjective` | packages/serializers/src/index.ts:38-52 | key escaping is injective |
| `DateCodec.EncodedKeysStayDistinct` | packages/serializers/src/index.ts:50-55 | no two fields of a record merge |
| `DateCodec.OnlyDatesLookLikeDates` | packages/serializers/src/index.ts:60-63 | an encoded value looks like a date if and only if it was one |
| `DateCodec.EncodeInjective` | packages/serializers/src/index.ts:42-58 | different trees have different encodings |

## Left out

- FenceSafety.SettledSharedLayerIsFresh: provider calls that fail or time out, and the exits of `failOpen: false`, are not modelled for deletes, because an abandoned `set` may land after the compensation whatever the protocol does.
- FenceTags.SettledTagsAreFresh: the invalidation of a tag counts only for values whose own instance, the issuing or a replaying one, has the key in its snapshot, as in the code; `FenceTagLimits.TagFencedExactly` shows that nothing more holds.
- FenceSafety.DeliverKeeps: event delivery, the bus and signatures are abstract; every published event may reach an instance any number of times, and a bus that loses events is outside `Settled`.
- EventDedup.MintIdInjective: instances are taken to have different sources, and the clock to give whole numbers.
- TagIndex.InMemoryTagIndex.AddTags: once a scope contains NUL the maps no longer encode one relation; then only the change at each address is stated, and `TagIndex.ScopesCollideExactly` says which scopes collide.
- MemoryProviders.MemoryTagIndex.RemoveKeyFromAllScopes: one call is one step, although the source yields between two scopes.
- SingleFlights.OneTaskPerSlot: a task that calls `run` on its own slot before its first `await` would start a second one, because the slot is set after the task has begun; the cache's tasks never do.
- FenceBackfill.BackfillStoresStaleExactly: a value that another instance fetched carries no moment in the reader's log, so nothing is said about it; and a reader that captured epoch 0 is taken to compare within 5000 bumps.
- CircuitBreakers.TripsExactlyOnBadRun: the clock does not read below 0, because 0 stands for "not opened".
- FenceRemoval.InvalidationEmptiesEveryLayer: a write or read of the key that overlaps the invalidation may put it back; `FenceLimits.FencedExactly` and `FenceBackfill.BackfillStoresStaleExactly` say how far.
- CircuitBreakers.TripNeedsBadRunInWindow: the converse does not hold, as `CircuitBreakers.BadRunAfterRestartNeedNotTrip` shows; within one window it does.
- RedisLock.HeldExactlyByOwnLease: tokens are unique, and Redis keeps a key until exactly its expiry.
- RedisLock.Acquire: a lifetime that is not positive, which a server refuses with an error, gives a lock that is gone at once.
- OutboxSafety.LiveClaimsAreDisjoint: the clock a worker computes its lease boundary from is never ahead of the database's.
- OutboxDispatch.ApplyOutboxInvalidation: an invalidation that is given up after its time limit is not followed further.
- LockRenewal.LockContinuity: timer ticks are exact, and their delay counts as latency.
- LockRenewal.LoadWithLock: reading the layers and polling for a peer's value are reduced to what they find, and a release that is rejected leaves the lock to expire.
- OutboxDispatch.Dispatch: the error notifier, the poll timer and its backoff are not modelled.
- DateCodec.RoundTrip: `JSON.stringify`, and the conversion of a valid date to its ISO text and back, are taken to lose nothing; numbers are integers.
- Version checks (`isStaleVersion`) appear only as a layer that may be skipped; their ordering is not total.
- The Redis tag index, the Memcached codec, MongoDB streams, Mongoose and Prisma adapters: thin layers over servers that are not part of this model.
- Event-bus transports, signing, plugins, runtime events, metrics, dashboard, CLI, decorators and framework adapters: no state of their own worth a proof.
- Duration parsing, entry validation and counters: each is decided by one read of its body.
