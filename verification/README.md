# PotatoStandardLibrary: a verified model of its concurrent containers, delegates, allocator and log records

This project models the parts of PotatoStandardLibrary whose guarantees rest on invariants over a
whole structure, or over every interleaving of several threads, and proves those guarantees with
Dafny 4.11. `dafny verify dfyconfig.toml` checks everything.

## How to read it

* **Lock-free protocols** (`mpmc_queue.dfy`, `mpsc_ring.dfy`, `observer_list.dfy`) and the
  **identifier protocol** (`id_distributor.dfy`) are step machines. A thread has a program counter
  and its locals; one step is one atomic load, compare-exchange, store or locked section; weak
  compare-exchanges may fail for no reason. A schedule is an arbitrary sequence of steps and new
  calls by any number of threads, so a lemma over all schedules is a lemma over all interleavings.
  Besides, every call that others have left in its middle is run to its end alone, with its outcome.
  Some state fields are history, written but never read by the steps, and say so.
* **The multicast delegate** (`multicast_delegate.dfy`) is a class with the source's fields and
  methods. Its ghost `log` records every registration, removal, broadcast and call;
  `delegate_log.dfy` defines which logs are acceptable with a machine over a plain ordered list,
  and the class invariant says the log so far is acceptable and ends in the present list. Callbacks
  are arbitrary finite trees of add, remove, clear and broadcast; `delegate_script.dfy` says over the
  same machine what the log must show for such a tree, resets apart, and every operation is proved to
  show exactly that. `delegate_state.dfy` and `delegate_steps.dfy` hold the representation invariant
  and what each step does to it.
* **The set of active identifiers** (`active_set.dfy`) is a class over two arrays, proved against a
  mathematical set for an arbitrary hash function.
* **The central pool** of one size class (`central_pool.dfy`) is a class over the block links, the
  span objects, the shards' doubly linked lists and the page index, with its loops and its
  batching. Ghost fields say which blocks are out and which spans are live. `intrusive_lists.dfy`
  holds the list surgery, `central_state.dfy` the invariant, `central_steps.dfy`,
  `central_fetch.dfy` and `central_return.dfy` why each step keeps it. One operation runs at a
  time; the thread's shard, the pages granted, the spare span object and the page at which the
  index refuses are inputs.
* **The thread cache** (`thread_cache.dfy`) is a class with its 16-bit counts, byte counters, two
  lists per class and two round-robin cursors, for every configuration. `cache_state.dfy` says what
  each operation makes of the lists, a recorded count being what 16 bits keep of a length, and each
  method is proved to do exactly that; ghost multisets follow every block between lists, central
  pool and user (`cache_balance.dfy`). `cache_bounds.dfy` and `cache_weights.dfy` hold why budget
  and counts are kept where the counts fit, `cache_runs.dfy` whole runs and the runs that lose
  blocks where they do not. Whether a freed block belongs to another shard, and the batch the
  central pool gives, are inputs.
* **The page allocator** (`page_allocator.dfy`, `page_state.dfy`) cuts spans from regions and keeps
  released ones; what the operating system reserves and commits is an input. **The region cache**
  (`region_cache.dfy`) is the probing table for dedicated regions, for an arbitrary hash.
* **The radix tree** (`radix_tree.dfy`, `radix_state.dfy`) is a class over its root array and two
  node pools, proved against a finite map.
* **Log records** (`log_record.dfy`) has the escaping, unescaping and splitting loops as methods
  proved against recursive functions, and the round trips as lemmas about those functions.

## What turned out false

* With capacity 1, which the queue's own constraint allows, "published" and "free again" are the
  same sequence number: two pushes in a row both succeed and the first element is lost
  (`OneCellOverwrites`). Over the admitted capacities the occupancy bound holds exactly from 2 on
  (`BoundHoldsExactlyFromTwoCells`), so the other lemmas about that queue ask for two cells.
* A removed handle can name a later registration of its slot, although the tests expect it never
  to. In every delegate any listed handle can be brought to do so: removed, then a callback added
  and removed 2^32 - 2 times, then one more added under the same handle (`ReuseHandle`). A handle
  is found exactly when its slot is bound and was retired a multiple of 2^32 - 1 times since the
  handle was given out (`HandleResolvesAfterWholePeriods`). Entries of the order vector cannot be
  confused that way, which is what broadcasting relies on (`LiveIsCurrent`, `EntriesAreDistinct`).
* The deferred counts of the thread cache are 16 bits wide, and nothing checks them before
  `++Count` (`Core/Memory/thread_cache.h:132` and `:307`). Let n be the blocks of 16 bytes that
  half of `ThreadCacheMaxBytes` admits, and let `Gain` be the most blocks one free can add to a
  list that long: 1 to 256, depending on the maximum of class 0 and the refill batch (at most 255).
  Recorded counts are right after every run if and only if n + `Gain` <= 65535
  (`CountsStayExactExactlyIfTheyFit`), and flushing gives back every block after every run under
  the same condition (`FlushEmptiesExactlyIfCountsFit`). The default configuration, where n is
  524288, does not meet it. Otherwise a run is given whose last free makes a deferred list longer
  than its count can say (`LossyRun`); from then on at least 65536 blocks stay there whatever is
  drained or flushed (`LostBlocksStay`).
* Taking over an unused bucket of the region cache is safe exactly for sizes other than 0
  (`RekeyIsSafeExactlyForSizes`): a request for 0 bytes would mark the bucket as never used and
  hide the regions behind it. `Core/Memory/memory_facade.h:434` turns such requests away, so
  `Acquire` asks for a size.
* A spare span whose pages cannot be committed again leaves its list and goes to nobody
  (`Core/Memory/virtual_memory_backend.h:505-508`). An acquisition drops a span exactly when the
  shard keeps a spare one of that size and the commit fails (`AcquireSpan`), and every span a client
  holds can come to that (`ReleasedAndDropped`). Dropped spans stay dropped, and used pages are
  exactly those of held, spare and dropped spans (`Run`, `UsedPagesArePartitioned`).

## Model

| member | source | states |
|---|---|---|
| MpmcQueue.EveryRunIsSafe | Core/Containers/mpmc_queue.h:116-200 | for every schedule and at least two cells: occupancy stays between 0 and the capacity, every answered pop returned the item pushed under its ticket, no two threads are ever at the same cell |
| MpmcQueue.EveryRunRefinesFifo | Core/Containers/mpmc_queue.h:116-200 | for every schedule the successful compare-exchanges, in order, are a run of a bounded first-in first-out queue, pops carrying the value the cell then holds |
| MpmcQueue.QuiescentRunAnswersInOrder | Core/Containers/mpmc_queue.h:116-200 | with no call in progress the answers are exactly the first items in push order, and the cells hold exactly the rest |
| MpmcQueue.PushRefusal | Core/Containers/mpmc_queue.h:124-141 | a push refuses if and only if, at that load, its position is current and the queue is full or the pop that empties its cell is unfinished |
| MpmcQueue.PopRefusal | Core/Containers/mpmc_queue.h:169-190 | a pop refuses if and only if, at that load, its position is current and the queue is empty or the push of the oldest element is unfinished |
| MpmcQueue.CallEndsExactly | Core/Containers/mpmc_queue.h:129-141 | in any reachable state a step ends its call if and only if it is the last of one that completes, or a load of the sequence number that refuses; a lost or failed compare-exchange keeps the thread in its call |
| MpmcQueue.PushAlone | Core/Containers/mpmc_queue.h:116-150 | undisturbed, a push appends exactly when there is room and otherwise changes nothing |
| MpmcQueue.PopAlone | Core/Containers/mpmc_queue.h:164-200 | undisturbed, a pop takes the oldest element exactly when there is one and otherwise changes nothing |
| MpmcQueue.PushReturns | Core/Containers/mpmc_queue.h:116-150 | from inside any push, whatever races it lost, the thread alone returns: successfully if and only if there is room and the pop of the next cell has finished, and otherwise nothing is changed; a push that has claimed its cell fills it |
| MpmcQueue.PopReturns | Core/Containers/mpmc_queue.h:164-200 | from inside any pop, whatever races it lost, the thread alone returns: with the oldest element if and only if there is one whose push has finished, and otherwise nothing is changed; a pop that has claimed its cell empties it |
| MpmcQueue.OneCellOverwrites | Core/Containers/mpmc_queue.h:57-57 | with capacity 1 a second push succeeds over the first element |
| MpmcQueue.BoundHoldsExactlyFromTwoCells | Core/Containers/mpmc_queue.h:57-57 | the occupancy bound holds on every schedule if and only if there are at least two cells |
| MpscRing.EveryRunIsFifo | Core/Containers/buffer.h:777-856 | for every schedule of any number of producers and one consumer: head <= tail <= head + capacity, the consumer received the items of the first tickets in ticket order, and no element was constructed over a live one |
| MpscRing.ClaimedSlotIsNotReady | Core/Containers/buffer.h:777-795 | while a producer owns a ticket, the ready flag of its slot is down and the ticket is between head and tail |
| MpscRing.QuiescentRingHoldsTheRest | Core/Containers/buffer.h:777-856 | at rest exactly the slots between head and tail are ready and hold their items, all others are empty |
| MpscRing.PushAlone | Core/Containers/buffer.h:777-795 | undisturbed, a push succeeds exactly when there is room |
| MpscRing.PopAlone | Core/Containers/buffer.h:841-856 | undisturbed, a pop returns the oldest element exactly when there is one |
| MpscRing.CallsEndExactly | Core/Containers/buffer.h:777-856 | in any reachable state a push ends only by completing or at a tail a whole lap ahead, a pop only by completing or at an empty ring or an unfinished oldest push |
| MpscRing.PushReturns | Core/Containers/buffer.h:777-795 | from inside any push, whatever races it lost, the producer alone returns: with a claimed ticket by filling its slot, otherwise successfully exactly when the tail is less than a lap ahead of the head it goes by |
| MpscRing.PopReturns | Core/Containers/buffer.h:841-856 | whatever producers are in the middle of, a pop alone returns the oldest element exactly when there is one and its producer has finished |
| ObserverLists.EveryRunKeepsTheChain | Core/Containers/observed.h:211-234 | for every schedule the links from the head visit each linked node once and end; the tail pointer is at the last or last but one, and at the last when no append is between linking and moving it |
| ObserverLists.ChainOnlyGrows | Core/Containers/observed.h:211-234 | continuing any schedule leaves the chain so far as a prefix |
| ObserverLists.ReturnedAppendIsLinked | Core/Containers/observed.h:222-226 | when an append returns, its node is in the chain |
| ObserverLists.AppendReturns | Core/Containers/observed.h:211-234 | from inside any append, whatever races it lost, the thread alone returns with its node at the end of the chain, and everything else as before |
| ObserverLists.TraversalSeesPrefix | Core/Containers/observed.h:173-181 | a finished traversal saw a prefix of the chain in order |
| ObserverLists.TraversalSeesAll | Core/Containers/observed.h:173-181 | when it finds the end, a traversal has seen the whole chain of that moment |
| ObserverLists.TraversalReturns | Core/Containers/observed.h:173-181 | from inside any traversal the thread alone comes to the end of the chain, having called every node once, in order |
| MulticastDelegates.MulticastDelegate.Add | Core/delegate.h:804-822 | appends a registration with its callback under a handle no present one has, and logs just that; fails only when the order cannot grow or all slots are taken, and then changes no registration |
| MulticastDelegates.MulticastDelegate.Remove | Core/delegate.h:898-913 | removes exactly the registration with that handle, and reports whether there was one |
| MulticastDelegates.MulticastDelegate.Contains | Core/delegate.h:919-923 | true exactly when some registration has that handle |
| MulticastDelegates.MulticastDelegate.Clear | Core/delegate.h:925-938 | leaves no registration; the log shows the removal of each that was listed, in order, and nothing else |
| MulticastDelegates.MulticastDelegate.Broadcast | Core/delegate.h:954-966 | extends the accepted log by one whole broadcast from the present list, whatever its callbacks do and however deep they nest; it shows the calls of those still listed and, behind the k-th call, exactly what the k-th reaction does |
| MulticastDelegates.MulticastDelegate.Run | Core/delegate.h:954-1011 | any tree of operations, at top level or inside callbacks, keeps the log acceptable, and what the log shows is exactly these operations done in turn, ending in the present list |
| DelegateScripts.ClearSilencesTheRest | Core/delegate.h:925-966 | where the first callback of a broadcast clears, the log shows that call and the removal of every registration, no further call, and nobody is registered afterwards |
| MulticastDelegates.MulticastDelegate.ReleaseRetiredSlots | Core/delegate.h:1055-1066 | resets callbacks only with no broadcast open, empties the retired list, changes no registration |
| MulticastDelegates.MulticastDelegate.FinalizeRetiredSlots | Core/delegate.h:1068-1081 | leaves every registration, no retired slot, and fewer than 16 tombstones or fewer than half of the order; the order changes only if that at least halves it |
| DelegateLog.BroadcastCallsStartingListeners | Core/delegate.h:954-966 | in an accepted log a whole broadcast calls only registrations of its start, in their order, at most once each, and all of them but those removed before it ended |
| DelegateLog.NeverCalledAfterRemoval | Core/delegate.h:959-964 | in an accepted log no call follows the removal of its registration |
| DelegateState.LiveIsCurrent | Core/delegate.h:1030-1035 | comparing wrapped generations is comparing how often the slot was retired: a stale entry is never taken for active |
| DelegateState.EntriesAreDistinct | Core/delegate.h:1037-1046 | the order never holds two entries with equal slot and generation |
| DelegateState.HandleParts | Core/delegate.h:1013-1028 | a 64-bit handle splits back into slot and generation, and only that handle does |
| MulticastDelegates.HandleResolvesAfterWholePeriods | Core/delegate.h:1013-1035 | the handle given out when a slot had a certain age is found if and only if the slot is bound now and its age is that one up to whole periods of 2^32 - 1 |
| MulticastDelegates.ReuseHandle | Core/delegate.h:1083-1106 | any listed handle of any delegate names a registration made later, after removing it and 2^32 - 2 rounds of adding and removing; all other registrations are as before |
| DelegateSteps.SkippedCompactionIsReusable | Core/delegate.h:1068-1081 | when compaction is not due, tombstones are so few that every free slot may be reused without confusing generations |
| DelegateSteps.CompactionKeepsInv | Core/delegate.h:1108-1121 | compaction keeps the invariant and the list of registrations, and leaves only live entries |
| DelegateSteps.RetireKeepsInv | Core/delegate.h:1037-1046 | retiring an active slot keeps the invariant |
| DelegateSteps.AddReusingKeepsInv | Core/delegate.h:1083-1091 | binding a recycled slot keeps the invariant and appends exactly one registration |
| DelegateSteps.StretchShrinks | Core/delegate.h:957-965 | while a broadcast is open, its stretch of the order stands for what it stood for less what was removed |
| ActiveSets.ActiveSet.Insert | Core/Components/Distrubutor/id_distubutor.cpp:57-114 | set insertion for any hash function, keeping reachability, exact counts and the load limit; the fallback after the loop is never reached |
| ActiveSets.ActiveSet.FindSlot | Core/Components/Distrubutor/id_distubutor.cpp:66-109 | the probing loop decides membership, and otherwise finds the first tombstone of the search or, without one, its end |
| ActiveSets.ActiveSet.Erase | Core/Components/Distrubutor/id_distubutor.cpp:116-152 | set removal, leaving a tombstone |
| ActiveSets.ActiveSet.Contains | Core/Components/Distrubutor/id_distubutor.cpp:154-186 | set membership |
| ActiveSets.ActiveSet.Rehash | Core/Components/Distrubutor/id_distubutor.cpp:188-220 | keeps the set, drops all tombstones, gives the documented capacity |
| ActiveSets.ActiveSet.InsertDuringRehash | Core/Components/Distrubutor/id_distubutor.cpp:222-243 | always finds an empty slot; the end of the loop is never reached |
| ActiveSets.ActiveSet.EnsureInsertCapacity | Core/Components/Distrubutor/id_distubutor.cpp:36-55 | keeps the set and leaves room for one more key within seven tenths; rebuilds exactly when that is lacking or tombstones are too many |
| ActiveSets.SearchEnds | Core/Components/Distrubutor/id_distubutor.cpp:66-109 | a search that meets an empty slot or goes all around proves the key absent |
| ActiveSets.PutKeepsTable | Core/Components/Distrubutor/id_distubutor.cpp:72-86 | storing an absent key in the first tombstone or at the end of its search keeps every key reachable and unique |
| ActiveSets.BuryKeepsTable | Core/Components/Distrubutor/id_distubutor.cpp:134-140 | turning a slot into a tombstone keeps every other key reachable |
| IdDistributors.EveryRunKeepsIdsApart | Core/Components/Distrubutor/id_distubutor.cpp:245-399 | for every schedule no identifier is held by two clients, and every identifier below the next fresh one is active, on a free list, in flight, or dropped by a failed push |
| IdDistributors.QuiescentRunLosesNothing | Core/Components/Distrubutor/id_distubutor.cpp:245-399 | with no call in progress the active identifiers are exactly those held |
| IdDistributors.HandedOutIdWasFree | Core/Components/Distrubutor/id_distubutor.cpp:330-382 | an identifier is handed out only while nobody holds or is releasing it |
| IdDistributors.AcquireReturns | Core/Components/Distrubutor/id_distubutor.cpp:286-361 | from any reachable state an undisturbed acquisition returns: with the first entry in scan order that is not in use, entries before it used up, else with the least fresh identifier not in use; every field of the state afterwards is given |
| IdDistributors.AcquireTakesFrom | Core/Components/Distrubutor/id_distubutor.cpp:286-309 | of the lists from the cursor on, around to it again, the first that is not empty loses exactly its last entry and the cursor grows by one; the entry is handed out, or, if it is in use, the outcome is that of acquiring from the state without it |
| IdDistributors.AcquireTakesFresh | Core/Components/Distrubutor/id_distubutor.cpp:330-345 | with all lists empty the acquired identifier is the least one from the counter on that is not in use, and the counter then stands behind it |
| IdDistributors.AcquiredIsRecycledOrLeast | Core/Components/Distrubutor/id_distubutor.cpp:330-361 | it gets a recycled identifier, and spends no fresh one, whenever some free-list entry is not in use; else all lists are empty and no smaller fresh identifier was free; all it takes off the lists otherwise is stale |
| IdDistributors.OccupyReturns | Core/Components/Distrubutor/id_distubutor.cpp:367-382 | undisturbed, occupying yields that identifier if it is not in use, and else ends exactly as an acquisition does |
| IdDistributors.AcquisitionReturns | Core/Components/Distrubutor/id_distubutor.cpp:286-382 | from inside any acquisition or occupation, whatever others did meanwhile, the client alone returns, and with what: a scan goes on from the list it has reached, an insertion that comes too late is followed by a new acquisition |
| IdDistributors.CallEndsExactly | Core/Components/Distrubutor/id_distubutor.cpp:330-401 | in any reachable state a call ends exactly at the insertion that finds its identifier not in use, which hands it out, or at the push of a release; a lost insertion goes on |
| IdDistributors.ReleasedIdIsRecycled | Core/Components/Distrubutor/id_distubutor.cpp:384-401 | undisturbed, a release frees the identifier and puts it on its stripe's list |
| IdDistributors.ReleaseReturns | Core/Components/Distrubutor/id_distubutor.cpp:384-401 | a release in progress, whatever others did meanwhile, frees its identifier and lists it on its stripe |
| IntrusiveLists.InsertedFront | Core/Memory/central_pool.h:893-902 | inserting in front of a doubly linked list gives that list with one more element, and touches no other link |
| IntrusiveLists.Unlinked | Core/Memory/central_pool.h:904-922 | removing any element, wherever it stands, gives the list without it, properly linked both ways |
| CentralState.HintIsIrrelevant | Core/Memory/central_pool.h:828-853 | the hinted lookup answers as the unhinted one for every pointer and every hint, live, pooled or null |
| CentralState.FindFindsOwner | Core/Memory/central_pool.h:805-853 | the lookup finds a span exactly when that live span of the class covers the pointer |
| CentralState.AllFree | Core/Memory/Span.h:112-115 | the free count equals the block count exactly when no block of the span is out |
| CentralSteps.BatchFits | Core/Memory/Span.h:94-107 | the clamp on the free count never takes effect |
| CentralSteps.TakeKeepsCore | Core/Memory/Span.h:68-79 | popping takes a block of the span that was not out, and keeps all spans' block accounts |
| CentralSteps.GiveBackKeepsCore | Core/Memory/Span.h:94-107 | hanging a batch of outstanding blocks in front keeps every block in exactly one place |
| CentralSteps.RetireKeepsCore | Core/Memory/central_pool.h:582-586 | giving up a span with no block out keeps the index exact and every other span's blocks |
| CentralSteps.AdoptKeepsCore | Core/Memory/central_pool.h:538-554 | a new span over unindexed pages has only blocks that are not out, and disturbs no other span |
| CentralFetch.BuildSizeClassFits | Core/Memory/central_pool.h:490-517 | at page sizes from 4096 on, every size class has at least 32 blocks per span, within 16 bits, that fit its pages |
| CentralFetch.SizeClassIsTight | Core/Memory/central_pool.h:490-517 | a block size is a multiple of 16; a span has the fewest pages that hold 32 blocks, and 128 or 256 KiB of them, and as many blocks as those pages hold and 16 bits count |
| CentralFetch.DescendingAt | Core/Memory/Span.h:60-65 | the i-th entry of a new free list is the i-th block from the end of the span |
| CentralFetch.OtherClassesDoNotDisturb | Core/Memory/central_pool.h:161-164 | what other classes do with their own spans, pages and blocks keeps this class's invariant |
| CentralReturns.OwnerFound | Core/Memory/central_pool.h:295-301 | the span of an outstanding block is found and live whatever the hint, so no returned block is skipped |
| CentralReturns.IdleAreCounted | Core/Memory/central_pool.h:872-890 | a shard's count of empty spans is the number of its spans none of whose blocks is out |
| CentralReturns.Collected | Core/Memory/central_pool.h:303-330 | collecting one block keeps all groups chained and the rest of the chain intact |
| CentralReturns.GroupFlushed | Core/Memory/central_pool.h:333-345 | giving back one group, and trimming spans, leaves all other groups valid and their spans live |
| CentralReturns.IdleGrows | Core/Memory/central_pool.h:872-890 | blocks of one span that come back make that span idle exactly if they were its last, and no other span |
| CentralPools.CentralPool.FetchBatch | Core/Memory/central_pool.h:148-225 | hands out distinct blocks that were not out: of the head of the partly free spans, else of the head of the empty ones, else of a new span; the first blocks of its free list, as many as asked for or all, those of a new span from its end; nothing changes hands when none can be had |
| CentralPools.CentralPool.ReturnBatch | Core/Memory/central_pool.h:238-346 | puts back exactly the first blocks of any chain of distinct outstanding blocks, however many spans it runs through and whatever the hint; a span with a block still out stays, and each shard keeps the lesser of 2 and its spans without one, those just emptied included |
| CentralPools.CentralPool.ApplyReturnedBatch | Core/Memory/central_pool.h:855-891 | gives a batch back and files its span on the list its free count calls for: the shard's empty spans grow by one exactly when no block of the span is out any more |
| CentralPools.CentralPool.PushBatch | Core/Memory/Span.h:94-107 | the batch goes in front of the free list and the free count grows by exactly its length |
| CentralPools.CentralPool.AllocateSpan | Core/Memory/central_pool.h:519-557 | adds one empty span none of whose blocks is out, or, when pages, span object or index fail, changes neither live spans nor index nor lists |
| CentralPools.CentralPool.RegisterSpanPages | Core/Memory/central_pool.h:747-784 | enters all pages of a span or, wherever the index fails, none |
| CentralPools.CentralPool.UnregisterSpanPages | Core/Memory/central_pool.h:786-803 | removes exactly the pages of the span |
| CentralPools.CentralPool.ReleaseEmptySpan | Core/Memory/central_pool.h:559-587 | gives up a span only when none of its blocks is out |
| CentralPools.CentralPool.TrimEmptySpans | Core/Memory/central_pool.h:589-601 | leaves the lesser of 2 and what it was of empty spans on the shard, and all other shards alone; only spans from the front of that list are given up, and every block is where it was |
| CentralPools.CentralPool.ThreadBlocks | Core/Memory/Span.h:60-65 | the free list of a new span is all its blocks, each once, the last block first |
| CentralPools.CentralPool.PopBlocks | Core/Memory/central_pool.h:200-211 | takes the first blocks of the free list in order, and counts them exactly |
| CentralPools.Run | Core/Memory/central_pool.h:148-346 | after any run of fetches and returns the client holds exactly the blocks that are out, and every block of every live span is either held or on that span's free list |
| CacheWeights.ProgressKept | Core/Memory/thread_cache.h:393-416 | draining the first non-empty class from the cursor keeps every class on its way to two visits |
| CacheWeights.ProgressDone | Core/Memory/thread_cache.h:390-393 | twice as many batches as classes visit every non-empty class twice |
| CacheRuns.CountsStayExactExactlyIfTheyFit | Core/Memory/thread_cache.h:19-19 | after every run every recorded count is its list's length if and only if the blocks the budget admits and those one free adds are at most 65535 |
| CacheRuns.FlushEmptiesExactlyIfCountsFit | Core/Memory/thread_cache.h:174-187 | flushing empties all lists after every run under exactly that condition |
| CacheRuns.EveryRunIsAtRest | Core/Memory/thread_cache.h:59-187 | where the counts fit, the deferred bytes are within budget and every count is exact after every run |
| CacheRuns.LossyRun | Core/Memory/thread_cache.h:126-152 | where they do not fit, a run of allowed requests makes a deferred list longer than its count can say |
| CacheRuns.LostBlocksStay | Core/Memory/thread_cache.h:362-421 | once a list is longer than its count can say, draining, idling and flushing leave it so; a flush takes only what the wrapped count shows |
| CacheRuns.RoundRobinLeavesLost | Core/Memory/thread_cache.h:393-416 | no number of round-robin batches brings such a list back within its count |
| CacheBounds.FreedAtRest | Core/Memory/thread_cache.h:114-166 | where the counts fit, a free keeps the budget and the list bounds, and no count wraps on the way |
| CacheBounds.DrainingReaches | Core/Memory/thread_cache.h:390-421 | with exact counts a whole draining ends at its limit, or every list is empty or two batches shorter; for deferred lists and, with chunks, for trimming |
| CacheBounds.FreedWithinLimits | Core/Memory/thread_cache.h:114-166 | a free after which nothing exceeds a limit takes the block in, spills, and does nothing more |
| CacheBounds.LimitsAreLargest | Core/Memory/thread_cache.h:33-54 | what the configuration comes to: the budget is half the maximum; a class admits the most blocks that fit its share, at least 8, within the configured maximum; spill, refill, batch and chunk are the largest within their bounds |
| CacheBounds.RelievedExactly | Core/Memory/thread_cache.h:126-152 | which blocks a free puts where before anything is drained: the block in front of its list or, routed, of the deferred one, and if the list is too long or all lists too large, the first blocks onto the deferred list, reversed |
| CacheBounds.FreedIsTrimmed | Core/Memory/thread_cache.h:114-166 | after a free from exact counts the deferred bytes are within budget or every deferred list empty or two batches shorter, and the retained bytes within five quarters of the maximum, or those of the lists within nine eighths, or every list empty or two chunks shorter |
| CacheBounds.FreedTakesFronts | Core/Memory/thread_cache.h:154-166 | a free takes only the fronts of lists; it drains deferred blocks only over the budget and other lists only when five quarters of the maximum were passed, and no batch or chunk more than needed, the last one from the class before the cursor |
| CacheBounds.DrainsInTurn | Core/Memory/thread_cache.h:393-416 | with exact counts each batch is of the first non-empty list from the cursor on, and the next search starts behind it |
| CacheBounds.OneBatchSettles | Core/Memory/thread_cache.h:384-421 | where the deferred bytes are over and one batch of the first non-empty deferred list from the cursor brings them within budget, that batch is all that is drained, and the cursor goes behind it |
| CacheBounds.OneChunkSettles | Core/Memory/thread_cache.h:459-532 | where the lists are over and one chunk of the first non-empty list from the cursor brings them within nine eighths of the maximum, that chunk is all that is trimmed, and the cursor goes behind it |
| CacheBounds.AllocatedFromLists | Core/Memory/thread_cache.h:59-112 | a cached block is handed out if and only if either list has one, and which; the central pool's batch is used only otherwise, its first block handed out and the rest kept |
| CacheBounds.OneFreeFitsTwoBatches | Core/Memory/thread_cache.h:141-152 | one free adds no more deferred blocks than two drain batches take |
| CacheBounds.WithinBudget | Core/Memory/thread_cache.h:141-157 | lists within budget, after one free and one drain, are within budget again |
| ThreadCaches.ThreadCache.InOnePlace | Core/Memory/thread_cache.h:557-560 | at any time a block the pool started with is exactly once on a list, in the central pool or with the user, and no other block is anywhere |
| ThreadCaches.ThreadCache.Allocate | Core/Memory/thread_cache.h:59-112 | hands out a cached block exactly when either list has one, else the first of the fetched batch, keeping the rest; counts, bytes and the whereabouts of every block stay accounted for |
| ThreadCaches.ThreadCache.Deallocate | Core/Memory/thread_cache.h:114-166 | in every configuration does to lists, cursors, counts and byte counters what a free is specified to: the block is taken back, too long a list spills, and what exceeds the limits is drained and trimmed |
| ThreadCaches.ThreadCache.TakeBack | Core/Memory/thread_cache.h:126-152 | the list keeps exactly what is not spilled, and the deferred list grows by the spill or the routed block; the decision is by the wrapped count |
| ThreadCaches.ThreadCache.SpillToDeferred | Core/Memory/thread_cache.h:287-321 | moves as many blocks as asked for, or all there are, off the front of the list |
| ThreadCaches.ThreadCache.RefillFromDeferred | Core/Memory/thread_cache.h:251-285 | moves a refill's worth back, or all there are |
| ThreadCaches.ThreadCache.DrainDeferredClassToCentral | Core/Memory/thread_cache.h:323-360 | gives exactly the first blocks asked for back to the central pool |
| ThreadCaches.ThreadCache.DrainDeferredRoundRobin | Core/Memory/thread_cache.h:384-421 | takes batches from non-empty classes in turn until the budget is met, at most twice as many batches as classes, and leaves the cursor behind the last one |
| ThreadCaches.ThreadCache.DrainToTarget | Core/Memory/thread_cache.h:499-532 | takes chunks from classes with a count in turn until the target is met |
| ThreadCaches.ThreadCache.TrimToBudget | Core/Memory/thread_cache.h:459-533 | forced, drains every list by its recorded count; otherwise, over the maximum, drains the deferred lists to the budget and the others to nine eighths of the maximum |
| ThreadCaches.ThreadCache.OnIdle | Core/Memory/thread_cache.h:168-172 | drains every list by its recorded count, keeping every block accounted for |
| ThreadCaches.ThreadCache.FlushAll | Core/Memory/thread_cache.h:174-187 | drains every list by its recorded count, keeping every block accounted for |
| ThreadCaches.ThreadCache.GivenBack | Core/Memory/thread_cache.h:174-187 | with all lists empty the byte counters are zero and every block is in the central pool or with the user |
| RadixTrees.RadixTree.InsertOrAssign | Core/Containers/radix_tree.h:43-103 | updates the map; fails exactly when the key is out of range or a new prefix is needed and that pool is used up, then changes no mapping and no node in use, and counts the failure of that pool |
| RadixTrees.RadixTree.Find | Core/Containers/radix_tree.h:105-128 | the map's value, or null |
| RadixTrees.RadixTree.Erase | Core/Containers/radix_tree.h:135-181 | removes the mapping and exactly the nodes no other key needs, and reports whether there was one |
| RadixTrees.RadixTree.Clear | Core/Containers/radix_tree.h:183-208 | the map is empty and every node is back in its pool |
| RadixTrees.RadixTree.MakeRoom | Core/Containers/radix_tree.h:60-90 | provides the nodes of a path or rolls back |
| RadixTrees.RadixTree.NodesUsedArePrefixes | Core/Containers/radix_tree.h:210-238 | the nodes in use at each level are as many as there are different stored prefixes, the size is the map's |
| RadixTrees.FixedNodePool.Acquire | Core/Containers/radix_tree.h:291-304 | takes a blank node not in use, or null exactly when none is left |
| RadixTrees.DecodeIsInjective | Core/Containers/radix_tree.h:353-369 | keys in range share a place exactly when they agree on all digits but those shifted out |
| RadixTrees.DecodeIsDigits | Core/Containers/radix_tree.h:353-369 | a key is in range exactly if, divided by its granularity, it is less than the product of the three sizes, and its place is then its digits in those radices, the highest first |
| RadixTrees.Lookup | Core/Containers/radix_tree.h:115-127 | following a path ends in null or in the cell of that path and no other |
| PageState.RegionIdsAreUnique | Core/Memory/virtual_memory_backend.h:416-419 | no two regions of any shards have the same number |
| PageState.CarvedFits | Core/Memory/virtual_memory_backend.h:515-540 | pages cut from a region overlap no span that is out or spare anywhere |
| PageAllocators.PageAllocator.AcquireSpan | Core/Memory/virtual_memory_backend.h:476-587 | a span of the exact size that overlaps no other; one of the shard's spare spans of that size whenever there is one and its pages can be committed; a new region only when there is none and no region has the room; drops a span exactly when the shard keeps one of that size and the commit fails; all other spare spans stay |
| PageAllocators.PageAllocator.AcquireFresh | Core/Memory/virtual_memory_backend.h:515-586 | succeeds exactly when the pages can be committed and some region has them, or a new one is granted and indexed; the pages come from the first region with room |
| PageAllocators.PageAllocator.TryPopCachedSpan | Core/Memory/virtual_memory_backend.h:730-761 | finds a spare span of the exact size if and only if the shard keeps one, takes exactly one, the last of its bucket or the first oversized one, the last span of that list moving to its place; no other list and no region changes |
| PageAllocators.PageAllocator.ReleaseSpan | Core/Memory/virtual_memory_backend.h:598-629 | the span is at the end of the list for its size of the shard that owns its region, and no other list changes |
| PageAllocators.PageAllocator.OpenRegion | Core/Memory/virtual_memory_backend.h:542-586 | adds a region at the granted address, of the usual size or as many pages as asked for if more, under a number never used before, its first pages handed out; on failure every shard is as before |
| PageAllocators.Run | Core/Memory/virtual_memory_backend.h:476-629 | from any reachable state, after any run, whatever the system refused: held spans lie in used pages, pairwise apart and apart from every dropped span, and what was dropped stays dropped |
| PageAllocators.PageAllocator.UsedPagesArePartitioned | Core/Memory/virtual_memory_backend.h:476-629 | a page was given out if and only if it is on a held, spare or dropped span, on one only, and no span is two of these |
| PageAllocators.ReleasedAndDropped | Core/Memory/virtual_memory_backend.h:505-508 | any held span, released and asked for again, is dropped or another of its size is, when the commit fails |
| RegionCaches.RegionCache.Acquire | Core/Memory/memory_facade.h:941-980 | a cached region of the size if and only if one is cached anywhere, for any hash: the last of the first bucket probed that has one; empty buckets passed on the way take over the size, all others stay |
| RegionCaches.RegionCache.Release | Core/Memory/memory_facade.h:982-1038 | keeps the region exactly when the first bucket free for its size has room and the byte limit allows, at the end of that bucket, and leaves all others; the byte counter is the cached total and within the limit |
| RegionCaches.SlotsFollow | Core/Memory/memory_facade.h:949-951 | probing begins at the bucket the hash gives and goes on bucket by bucket, around |
| RegionCaches.NotCached | Core/Memory/memory_facade.h:948-974 | probing in vain, up to a bucket never used, proves that no region of the size is cached |
| RegionCaches.RekeyIsSafeExactlyForSizes | Core/Memory/memory_facade.h:954-957 | taking over an unused bucket keeps every cached region reachable if and only if the size is not 0 |
| LogRecords.RoundTrip | Core/logger.h:147-193 | reading back a written record gives the record, whatever its texts contain |
| LogRecords.RecordFields | Core/logger.h:147-164 | the nine fields of a written line are the number, level, time in nanoseconds, source line and column in decimal, and then category, file, function and text, escaped |
| LogRecords.WrongFieldCountIsRefused | Core/logger.h:172-178 | a line is refused unless it has exactly eight bars that no backslash escapes |
| LogRecords.AcceptedIsStable | Core/logger.h:170-193 | what reading accepts, written and read again, gives the same record |
| LogRecords.LogRoundTrip | Core/logger.h:694-695 | splitting a written log at its newlines recovers every record in order |
| LogRecords.SerializedIsOneLine | Core/logger.h:214-243 | no record contains a raw newline |
| LogRecords.FieldsOfJoined | Core/logger.h:292-332 | splitting undoes joining on fields whose bars are escaped |
| LogRecords.UnescapeEscaped | Core/logger.h:214-290 | unescaping undoes escaping for every text |
| LogRecords.EscapesAre | Core/logger.h:214-290 | backslash, bar, newline, carriage return and tab are written as two characters each, every other character as itself; an unknown escape reads as its second character, a last backslash as itself |
| LogRecords.EscapeField | Core/logger.h:214-243 | the loop computes the escaped text |
| LogRecords.UnescapeField | Core/logger.h:245-290 | the loop computes the unescaped text |
| LogRecords.SplitEscapedFields | Core/logger.h:292-332 | the loop computes the fields of a line |

## Left out

- Memory orders: steps interleave sequentially consistently; queue positions and the identifier counter are unbounded, so their 64-bit wrap-around is not modelled.
- The allocator parts run one operation at a time: lock-free span-object stack, per-shard locks and the races of several threads on one pool are not modelled.
- The central pool is one size class. Other classes appear as spans and pages that are not its own; the spare span objects they share are an input.
- Span hints of the thread cache: they decide only how a freed block is routed, which is an input, and what hint the central pool gets, which `HintIsIrrelevant` shows not to matter.
- Allocate: the deferred and free lists are sequences; that they are threaded through their blocks is modelled for the central pool only.
- CountsStayExactExactlyIfTheyFit: asks for a refill batch of at most 255 or a budget of 65535 blocks and more. The fetch itself caps batches at 128 (`Core/Memory/thread_cache.h:87-90`); with larger ones a free may add more than two drain batches take, and for smaller budgets neither direction is claimed.
- FlushEmptiesExactlyIfCountsFit: asks for the same, for the same reason.
- The radix tree's nodes are numbered and sit in sequences; a key layout of 64 indexed bits, whose range check shifts by the whole width, is not modelled.
- Alignment, guard bytes, the quarantine, allocation statistics, the sampled decommit counter and huge pages.
- The index of dedicated allocations by address.
- Delegates: type erasure, inline storage, copying and moving a whole delegate, callbacks that throw, and destructors of callbacks that call back.
- Queues: `snapshot`, `size`, `empty` and iterators, the many-consumer ring and the single-threaded ring of `Core/Containers/buffer.h`, and the double buffer.
- The identifier distributor: exceptions from locks and from growing vectors.
- Log records: the writing thread, file rotation and reading files; numbers are read as unbounded.
- Time, mathematics, colours, benchmarks and build files.
