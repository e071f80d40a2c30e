# StopGap and tcmalloc: space bookkeeping, proved in Dafny

StopGap moves files into the gaps of an NTFS volume. It ships with gperftools'
tcmalloc. Both live from bookkeeping of space: which clusters or pages are free, in
which index they are listed, and who holds the rest. This project models that
bookkeeping, the caches and maps beside it, and the two profilers that use them, and
proves what their callers rely on.

| files | what they model |
|---|---|
| `PageHeapState.dfy`, `PageHeapOps.dfy`, `PageHeap.dfy` | tcmalloc's page heap: spans, page map with stale interior entries, segregated free lists, statistics, heap limit, release and growth |
| `PageHeapClients.dfy` | `do_memalign`'s page path and `IterateOverRanges` on top of the page heap |
| `SpanList.dfy` | the circular doubly linked span lists, in place |
| `CentralFreeList.dfy`, `CentralFreeListProof.dfy` | the central free lists as threads that interleave at every lock operation |
| `CentralFreeListOutcomes.dfy` | what InsertRange and RemoveRange achieve over every interleaving |
| `PageMap.dfy`, `PageMap3.dfy` | page maps: flat, two-level and three-level, for every number of bits |
| `PackedCache.dfy`, `SizeClassCache.dfy` | the packed direct-mapped cache, and the unlocked page-to-sizeclass protocol on top of it |
| `Extents.dfy`, `Gaps.dfy` | StopGap's free extents, held in an index by position and one by size |
| `Multimap.dfy` | the sorted multimaps both of StopGap's indices are kept in |
| `FileEnumeration.dfy`, `FileChoice.dfy`, `Knapsack.dfy` | StopGap's file index and the choice of files for a gap |
| `AddressMap.dfy` | the clustered hash map from addresses to values |
| `HeapChecker.dfy`, `HeapLookup.dfy`, `HeapProfile.dfy` | the leak checker's mark phase, snapshots and region subtraction, and its pointer lookup in the address map; the heap profiler's accounts |
| `ProfileData.dfy` | the CPU profiler's sample table and slot stream |
| `Options.dfy`, `Sequences.dfy`, `FiniteSets.dfy`, `Arithmetic.dfy` | shared definitions and lemmas |

Objects that the sources change in place are classes. The central free lists are a step
system, because the point there is what other threads may see between two lock
operations.

Oracles: the k-th call of `TCMalloc_SystemAlloc` yields `grants(k)`, a run that counts if it is
large enough and fresh, or nothing; `room(k)` says whether the page heap's map has room for
the k-th run. `TCMalloc_SystemRelease` gives any answer (always yes when `releaseWorks`). The
allocator behind the page maps answers its k-th request by `answers(k)`. A volume scan returns
any well-formed extents. Whether a profile can be opened is a parameter. The release rate and the share of a span in use are real numbers. The
leak checker's memory, pointer lookup and roots are parameters; `LookupResolves` and
`HaveOnHeap` join the lookup to the address map.

## Where the code and its documentation part

- `findBest` can return one file twice, so its result is stated with multiplicity.
  `SameFileTwice` shows it for every size up to 128 clusters: the only result is one file
  twice. While there is room, a visit leaves the candidates distinct exactly when
  `RoomDistinct` says so. For gaps of at most 256 clusters and at most four eligible files
  of a size, the candidates of the whole pass are distinct exactly when files of one size
  are indexed by start: `PassDistinctIff`. Under that order no result has duplicates:
  `OutcomeDistinct`.
- `TCMalloc_PageMap2/3::Ensure` computes its last key in unsigned arithmetic. For a range
  that wraps it reports success and ensures nothing; for the empty range at key 0 it fails.
  The contracts of both state that success means an ensured range exactly when
  `start + n <= 2^word`; `WrappedRange` is a call that reports a key it did not ensure.
- `TCMalloc_PageMap1::Ensure` is meant to test `x + n <= LENGTH`. It answers wrongly exactly
  when `x > LENGTH` and `x + n <= LENGTH + 2^word`: then it says yes. The contract of
  `PageMap1.Ensure` gives both cases.
- `NonLiveSnapshot` is documented to leave ignored allocations out. It does not look at the
  ignore bit: `IgnoredReported`, `IgnoredLeftOut`.
- When the page map cannot be extended, `GrowHeap` has already counted the run as system
  memory. The heap invariant carries these pages as `lost`.
- `RecordAlloc` at an address that is still recorded drops the old record without counting
  it as freed; the accounts stay right exactly when the address was not recorded.
- With a pointer offset limit below the size of an object, `FindInside` may miss it. The
  contract covers every limit, and is exact when no range exceeds it.

## Model

| member | source | states |
|---|---|---|
| `PageHeapClass.PageHeap.constructor` | gperftools/src/page_heap.cc:63-76 | the empty heap satisfies the whole-state invariant: live spans partition the managed pages, the page map names the right span at every first and last page, every free span is on exactly the list for its length and kind, no two touching spans are free of one kind, and the byte counters are the matching sums |
| `PageHeapClass.PageHeap.NewSpan` | gperftools/src/span.cc:53-62 | a descriptor that no live span uses |
| `PageHeapClass.PageHeap.DeleteSpan` | gperftools/src/span.cc:64-70 | the descriptor is recycled and can be handed out once |
| `PageHeapClass.PageHeap.RecordSpan` | gperftools/src/page_heap.h:251-256 | first and last page of the span map to it |
| `PageHeapClass.PageHeap.RemoveFromFreeList` | gperftools/src/page_heap.cc:327-335 | the span leaves its list and its counter, nothing else changes |
| `PageHeapClass.PageHeap.PrependToFreeList` | gperftools/src/page_heap.cc:315-325 | the span enters the list of its length and kind, in front, and its counter; no other list changes |
| `PageHeapState.DetachKeeps` | gperftools/src/page_heap.cc:327-335 | taking a free span off its list keeps the invariant with that span in transit |
| `PageHeapState.AttachKeeps` | gperftools/src/page_heap.cc:315-325 | listing a span in transit that touches no free span of its kind restores the full invariant |
| `PageHeapState.CutKeeps` | gperftools/src/page_heap.cc:219-235 | cutting a span in two keeps partition, page map, lists and counters although interior entries go stale |
| `PageHeapState.AbsorbPrevKeeps` | gperftools/src/page_heap.cc:289-299 | joining with the span before keeps the invariant |
| `PageHeapState.AbsorbNextKeeps` | gperftools/src/page_heap.cc:300-310 | joining with the span after keeps the invariant |
| `PageHeapOps.TagBefore` | gperftools/src/page_heap.cc:288-291 | the entry for the page before a span, if any, is the live span that ends there, never a deleted one |
| `PageHeapOps.TagAfter` | gperftools/src/page_heap.cc:300-303 | the same for the page after a span |
| `PageHeapOps.CarveIsolated` | gperftools/src/page_heap.cc:245-255 | the leftover of a carved span touches no free span of its kind, so not coalescing it is right |
| `PageHeapOps.CarveKeeps` | gperftools/src/page_heap.cc:237-258 | carving keeps the invariant |
| `PageHeapClass.PageHeap.Carve` | gperftools/src/page_heap.cc:237-258 | the method is the carving step, on every field, and keeps the invariant |
| `PageHeapOps.SplitKeeps` | gperftools/src/page_heap.cc:219-235 | splitting a span in use keeps the invariant |
| `PageHeapClass.PageHeap.Split` | gperftools/src/page_heap.cc:219-235 | the client has two adjacent spans of n and length - n pages in place of one |
| `PageHeapOps.MergeKeeps` | gperftools/src/page_heap.cc:276-313 | merging with both neighbours and listing the result restores the full invariant |
| `PageHeapOps.MergeEffect` | gperftools/src/page_heap.cc:276-313 | merging moves no page between clients and heap, counts the span once and leaves a free span at least as long |
| `PageHeapClass.PageHeap.MergeIntoFreeList` | gperftools/src/page_heap.cc:276-313 | the method is that merge and ends in the full invariant |
| `PageHeapClass.PageHeap.Delete` | gperftools/src/page_heap.cc:260-274 | exactly the span leaves the clients, its bytes go to the free counter, or to the unmapped one if scavenging was due, and a free span of at least its length exists even then |
| `PageHeapClass.PageHeap.IncrementalScavenge` | gperftools/src/page_heap.cc:337-366 | counts down; at zero it releases one span if releasing works and one is free, changes nothing else, and waits as long as the rate and the pages released demand |
| `PageHeapClass.DelayPerPage` | gperftools/src/page_heap.cc:353-364 | delay times rate is a thousand pages for each released one, rounded down, unless the bound is reached |
| `PageHeapClass.NoDelay` | gperftools/src/page_heap.cc:341-352 | with a rate of zero, or nothing released, the delay is the default |
| `PageHeapClass.PageHeap.Wait` | gperftools/src/page_heap.cc:353-364 | the clamped and truncated product is that delay |
| `PageHeapClass.PageHeap.ReleaseLastNormalSpan` | gperftools/src/page_heap.cc:368-382 | the last span of the list, and no other, is returned and merged, or nothing changed; returns its pages |
| `PageHeapClass.PageHeap.VisitNextList` | gperftools/src/page_heap.cc:384-405 | one step of the round robin from any release index releases one span of the list or finds it empty |
| `PageHeapClass.PageHeap.ReleaseRound` | gperftools/src/page_heap.cc:384-405 | one pass over all lists makes progress, meets the goal, is refused, or leaves nothing to release, and releases no span more than needed |
| `PageHeapClass.PageHeap.ReleaseAtLeastNPages` | gperftools/src/page_heap.cc:384-405 | ends from any release index; returns exactly the increase of unmapped pages; when releasing works it releases at least the smaller of num and all free pages; without the last span released it would have been fewer than num |
| `PageHeapOps.ReturnNormals` | gperftools/src/page_heap.cc:368-382 | returning a span leaves every other normal span as it was |
| `PageHeapClass.PageHeap.EnsureLimit` | gperftools/src/page_heap.cc:407-429 | the answer is right about the state left behind; with release it is yes exactly when giving back every free page makes room; no span more than needed is released |
| `PageHeapClass.PageHeap.BestFit` | gperftools/src/page_heap.cc:161-196 | no listed span of at least n pages is shorter, or as short and at a lower address |
| `PageHeapClass.PageHeap.LargeFit` | gperftools/src/page_heap.cc:161-196 | both scans together find the best fit of the large lists of either kind, or no large span has n pages |
| `PageHeapClass.PageHeap.CarveFound` | gperftools/src/page_heap.cc:196-205 | carving a span that the limit allows keeps the pages taken within it |
| `PageHeapClass.PageHeap.TryLarge` | gperftools/src/page_heap.cc:161-207 | the best fit is carved, or there is none, or it is a returned span that the limit forbids and nothing changed |
| `PageHeapClass.PageHeap.AllocLarge` | gperftools/src/page_heap.cc:161-217 | calls itself at most once; a normal best fit is carved whatever the limit; within the limit the best fit is, or there is none; otherwise only free pages were released |
| `PageHeapClass.FirstFit` | gperftools/src/page_heap.cc:82-106 | a span of the first non-empty lists is a shortest free span of at least n pages |
| `PageHeapClass.PageHeap.TryLists` | gperftools/src/page_heap.cc:82-106 | a normal span of s pages is carved whatever the limit; otherwise one round serves from the returned list, or, within the limit, both are empty |
| `PageHeapClass.PageHeap.SearchFreeAndLargeLists` | gperftools/src/page_heap.cc:78-109 | if a normal span fits best, one is carved whatever the limit; within the limit it carves a shortest free span of at least n pages, of least address among large ones, or no free span has n pages |
| `PageHeapClass.PageHeap.SystemAlloc` | gperftools/src/page_heap.cc:509-519 | the system's answer to this request, if it is long enough and disjoint from all managed pages, or nothing |
| `PageHeapClass.PageHeap.AskSystem` | gperftools/src/page_heap.cc:509-518 | the system is asked exactly if the limit allows it, after releasing what it must; the answer is what it grants |
| `PageHeapClass.PageHeap.ObtainRun` | gperftools/src/page_heap.cc:505-522 | the run is what asking first for the minimum and then for n yields, each if the limit allows; when releasing works, exactly if it would with every free page returned |
| `PageHeapClass.PageHeap.AddSpan` | gperftools/src/page_heap.cc:525-546 | the run becomes one span in use and the invariant holds |
| `PageHeapClass.PageHeap.AdoptOrLose` | gperftools/src/page_heap.cc:541-554 | the run becomes managed free space exactly if the page map has room; it counts as system memory either way |
| `PageHeapClass.PageHeap.Adopt` | gperftools/src/page_heap.cc:525-549 | a fresh run becomes free space of at least that length, coalesced; system bytes grow by it and exactly its pages become managed |
| `PageHeapClass.LoseKeeps` | gperftools/src/page_heap.cc:550-554 | a run whose page map entries cannot be made is counted as system memory and as lost |
| `PageHeapOps.AddRunKeeps` | gperftools/src/page_heap.cc:542-549 | adopting a disjoint run keeps the invariant |
| `PageHeapClass.PageHeap.GrowHeap` | gperftools/src/page_heap.cc:503-555 | succeeds exactly when the number is valid, a request that the limit allowed was granted, and the page map had room; then there is a free span of n pages and exactly the run becomes managed; system bytes grow by a granted run in any case; clients see nothing |
| `PageHeapClass.PageHeap.SearchTwice` | gperftools/src/page_heap.cc:113-147 | a best fit is carved, normal ones whatever the limit; free pages are all returned only under the forced-release condition, and then, without a limit, failure means that no n contiguous free pages exist |
| `PageHeapClass.PageHeap.GrowAndSearch` | gperftools/src/page_heap.cc:151-158 | the heap grows exactly when it can; without a limit it then serves the request; under a limit it fails after growing only if the best fit is a returned span beyond the limit |
| `PageHeapOps.RunInOneSpan` | gperftools/src/page_heap.cc:276-313 | eager coalescing: contiguous free pages of one kind lie in one span |
| `PageHeapOps.FreeRunIffSpan` | gperftools/src/page_heap.cc:121-151 | once every free page is returned, n contiguous free pages exist exactly when a free span has n pages |
| `PageHeapClass.PageHeap.New` | gperftools/src/page_heap.cc:113-159 | a span of exactly n pages in use, carved from a free span, and nothing else changed for clients, or nothing. For any limit: if a normal span fits best, or n pages are within the limit and free, a best fit is carved at once; the heap grows exactly when it can; failure after growing means that the limit forbids the best fit. Without a limit: it fails exactly if no free span has n pages and the heap cannot grow; pages are returned first only under the forced-release condition, and then no run of n free pages existed at all |
| `PageHeapOps.RegisterKeeps` | gperftools/src/page_heap.cc:431-441 | registering interior pages keeps the invariant |
| `PageHeapClass.PageHeap.RegisterSizeClass` | gperftools/src/page_heap.cc:431-441 | the span has the class, every page of it maps to it, and nothing else changes |
| `PageHeapClass.PageHeap.RecordInner` | gperftools/src/page_heap.cc:437-440 | the loop writes exactly the interior pages |
| `PageHeapClients.FindSkip` | gperftools/src/tcmalloc.cc:1356-1361 | the search ends at the first aligned page, before align bytes are skipped |
| `PageHeapClients.DropFront` | gperftools/src/tcmalloc.cc:1362-1366 | the leading pages go back to the heap |
| `PageHeapClients.DropBack` | gperftools/src/tcmalloc.cc:1368-1374 | the trailing pages go back to the heap |
| `PageHeapClients.MemalignPages` | gperftools/src/tcmalloc.cc:1340-1375 | an aligned span that holds the bytes with less than a page to spare is in use and no other page; it succeeds whenever the page heap can serve the run it asks for |
| `PageHeapClients.Memalign` | gperftools/src/tcmalloc.cc:1304-1375 | the same for every size, zero counting as one byte; a wrapping sum of size and alignment changes nothing |
| `PageHeapClients.Pages` | gperftools/src/common.h:148-151 | the fewest pages that hold so many bytes |
| `PageHeapClients.Needed` | gperftools/src/tcmalloc.cc:1341-1350 | the fewest pages that hold the bytes, and the alignment if it exceeds a page |
| `PageHeapClients.NextIsStart` | gperftools/src/page_heap.cc:464-468 | from a page between spans the next mapped page is the start of the next live span |
| `PageHeapClients.NextMapped` | gperftools/src/pagemap.h:299-320 | the three-level tree yields the span of the least mapped page at or above the given one |
| `PageHeapClients.StoreEntry` | gperftools/src/pagemap.h:258-264 | storing an entry in the tree is storing it in the page map the heap reasons about |
| `PageHeapClients.GetNextRange` | gperftools/src/page_heap.cc:464-493 | the next span's address, length and kind, found through the tree, or there is none; the share in use is none for a free span, all for a large object, and times the bytes it is the object size times the reference count for a small one |
| `PageHeapClients.AtMostWhole` | gperftools/src/page_heap.cc:471-480 | the share is between none and all when the objects in use fit into the span |
| `PageHeapClients.IterateOverRanges` | gperftools/src/tcmalloc.cc:532-558 | every span is reported exactly once, in address order, with its address, length, kind and share in use |
| `SpanLists.Init` | gperftools/src/span.cc:72-75 | an empty ring |
| `SpanLists.Prepend` | gperftools/src/span.cc:92-99 | the ring with the span in front; only the two neighbours are written |
| `SpanLists.Remove` | gperftools/src/span.cc:77-82 | the ring without the span, whichever list it is on |
| `SpanLists.Length` | gperftools/src/span.cc:84-90 | the number of spans; the walk ends |
| `CentralFreeListProof.CutObjects` | gperftools/src/central_freelist.cc:334-347 | Populate cuts exactly the objects that fit, each once, a size apart |
| `CentralFreeListProof.AlwaysSafe` | gperftools/src/central_freelist.cc:103-148 | in a state that satisfies the invariant every thread's next step finds its span, object and list |
| `CentralFreeListProof.ReleaseLastKeeps` | gperftools/src/central_freelist.cc:128-143 | a span whose last object comes home has all its objects, so deleting it with the lock dropped is right |
| `CentralFreeListProof.ReleaseOneKeeps` | gperftools/src/central_freelist.cc:103-148 | returning one object to its span keeps the invariant |
| `CentralFreeListProof.FetchOneKeeps` | gperftools/src/central_freelist.cc:291-307 | fetching one object keeps the invariant and moves an emptied span |
| `CentralFreeListProof.InsertKeeps` | gperftools/src/central_freelist.cc:230-243 | InsertRange's branch on a full batch keeps the invariant |
| `CentralFreeListProof.EvictKeeps` | gperftools/src/central_freelist.cc:150-213 | leaving the own lock for the victim's keeps the invariant |
| `CentralFreeListProof.VictimKeeps` | gperftools/src/central_freelist.cc:202-228 | shrinking the victim's cache keeps the invariant |
| `CentralFreeListProof.BackKeeps` | gperftools/src/central_freelist.cc:172-197 | coming back with a slot keeps the invariant, also when the own cache filled up meanwhile |
| `CentralFreeListProof.RemoveKeeps` | gperftools/src/central_freelist.cc:245-280 | RemoveRange's branches keep the invariant |
| `CentralFreeListProof.StepKeeps` | gperftools/src/central_freelist.cc:81-357 | every enabled step of every thread keeps the invariant |
| `CentralFreeListProof.RunKeeps` | gperftools/src/central_freelist.cc:81-357 | the invariant holds in every state of every interleaving |
| `CentralFreeListProof.CountsExact` | gperftools/src/central_freelist.cc:81-148 | in every reachable state a span's reference count and its free objects make up all its objects, which are as many as fit; it is on the non-empty list exactly when it has free ones, and counter and number of spans are exact |
| `CentralFreeListProof.OnePlace` | gperftools/src/central_freelist.cc:230-357 | in every reachable state no object is in two places among span lists, transfer slots and threads' hands, nor twice in one |
| `CentralFreeListProof.SlotsBounded` | gperftools/src/central_freelist.cc:150-243 | in every reachable state used slots <= cache size <= maximum for every class, and all cache sizes together never exceed the initial sum |
| `CentralFreeListProof.OneLock` | gperftools/src/central_freelist.cc:202-228 | no thread ever holds two size class locks |
| `CentralFreeListProof.WritesUnderLock` | gperftools/src/central_freelist.cc:150-357 | a class's lists, slots and counters change only while no other thread holds its lock |
| `CentralFreeListProof.SpanWritesUnderLock` | gperftools/src/central_freelist.cc:103-148 | in every run a span's objects and reference count change, and a span goes, only in the hands of the thread that holds its class's lock |
| `CentralFreeListProof.NoDeadlock` | gperftools/src/central_freelist.cc:202-228 | in every reachable state in which a thread is not idle, some thread that is not idle has an enabled step |
| `CentralFreeListOutcomes.RemoveOutcome` | gperftools/src/central_freelist.cc:245-280 | in every run a RemoveRange for n objects ends by handing out n objects of its class, or fewer and then no listed span has any left, and none only if it asked the page heap for a span and got none |
| `CentralFreeListOutcomes.AsksWhenEmpty` | gperftools/src/central_freelist.cc:282-289 | the page heap is asked only by a thread that has nothing and whose class has no free object |
| `CentralFreeListOutcomes.BatchFromCache` | gperftools/src/central_freelist.cc:248-258 | a batch is served from the newest transfer slot whenever there is one, as it was put there, without touching a span |
| `CentralFreeListOutcomes.OnlyRemoveHands` | gperftools/src/central_freelist.cc:230-280 | in every run an object comes into the hands of clients only when a RemoveRange ends |
| `CentralFreeListOutcomes.InsertOutcome` | gperftools/src/central_freelist.cc:166-243 | in every run an InsertRange puts its whole chain into one new slot of its class, or releases it, and a batch only if no slot was free at first and the cache is at its maximum or both attempts to win a slot failed |
| `CentralFreeListOutcomes.Picking` | gperftools/src/central_freelist.cc:150-209 | an attempt goes for the class it picked exactly if that is another one whose cache has a free slot, or any slot the second time |
| `CentralFreeListOutcomes.Shrinking` | gperftools/src/central_freelist.cc:202-228 | under the victim's lock the attempt takes exactly one slot if it may, with the newest batch if all slots are used, and changes nothing otherwise |
| `CentralFreeListOutcomes.SlotsConserved` | gperftools/src/central_freelist.cc:150-228 | in every run no step makes or loses a transfer slot, except one that its winner can no longer use |
| `CentralFreeListOutcomes.NoOverlap` | gperftools/src/central_freelist.cc:334-347 | in every reachable state no two objects of any spans share memory |
| `CentralFreeListOutcomes.EmptySpanGoes` | gperftools/src/central_freelist.cc:128-143 | in every run a span whose last object comes home leaves its class with that step |
| `CentralFreeListOutcomes.PagesGivenUp` | gperftools/src/central_freelist.cc:137-141 | then exactly its pages leave the page map |
| `RadixIndex.LastKey` | gperftools/src/pagemap.h:160-161 | exactly when the unsigned last key is the caller's, and what it is when it wraps |
| `RadixIndex.HiHi` | gperftools/src/pagemap.h:247-249 | the two upper indices together are the shift by both widths |
| `RadixIndex.OnePlace` | gperftools/src/pagemap.h:144-146 | upper and lower index determine the key |
| `PageMap.PageMap1.constructor` | gperftools/src/pagemap.h:72-75 | every key reads null |
| `PageMap.PageMap1.Set` | gperftools/src/pagemap.h:102-104 | exactly the one key reads the new value |
| `PageMap.PageMap1.Ensure` | gperftools/src/pagemap.h:79-85 | right for ranges that begin in or at the end of the array; true for those behind it |
| `PageMap.PageMap1.Next` | gperftools/src/pagemap.h:106-114 | the first non-null value at or above the key, or there is none |
| `PageMap.PageMap2.constructor` | gperftools/src/pagemap.h:139-142 | every key reads null |
| `PageMap.PageMap2.Set` | gperftools/src/pagemap.h:153-158 | exactly the one key reads the new value: the tree behaves as a flat map |
| `PageMap.PageMap2.MakeLeaf` | gperftools/src/pagemap.h:168-174 | asks for memory exactly if the leaf is missing, succeeds exactly as answered, and changes no key's value |
| `PageMap.PageMap2.EnsureBlock` | gperftools/src/pagemap.h:162-178 | all keys up to the end of the leaf are ensured, or memory was asked for and refused |
| `PageMap.PageMap2.EnsureKeys` | gperftools/src/pagemap.h:160-180 | succeeds exactly if no request was refused and the unsigned last key is in the map or before the first key; asks only for missing leaves |
| `PageMap.PageMap2.Ensure` | gperftools/src/pagemap.h:160-180 | the promise that success means an ensured range holds exactly when the range does not wrap; a wrapping range succeeds and changes nothing; otherwise it succeeds exactly when no request for memory was refused and the range is empty or fits; a range that is ensured asks for nothing; no value changes |
| `PageMap.WrappedRange` | gperftools/src/pagemap.h:160-161 | a wrapping range for which success is reported although its first key is not ensured |
| `PageMap.PageMap2.Next` | gperftools/src/pagemap.h:187-204 | the first non-null value at or above the key, skipping missing leaves |
| `PageMapThree.PageMap3.constructor` | gperftools/src/pagemap.h:242-245 | every key reads null |
| `PageMapThree.PageMap3.Set` | gperftools/src/pagemap.h:258-264 | exactly the one key reads the new value: the tree behaves as a flat map |
| `PageMapThree.PageMap3.MakeNode` | gperftools/src/pagemap.h:275-280 | asks for memory exactly if the node is missing, succeeds exactly as answered, and changes no key's value or leaf |
| `PageMapThree.PageMap3.EnsureBlock` | gperftools/src/pagemap.h:268-292 | all keys up to the end of the leaf are ensured exactly if no request was refused |
| `PageMapThree.PageMap3.EnsureKeys` | gperftools/src/pagemap.h:266-294 | as for two levels |
| `PageMapThree.PageMap3.Ensure` | gperftools/src/pagemap.h:266-294 | as for two levels, with nodes and leaves both made on demand and both able to be refused |
| `PageMapThree.PageMap3.Next` | gperftools/src/pagemap.h:299-320 | the first non-null value at or above the key, skipping missing nodes and leaves |
| `PageMapThree.InteriorBits` | gperftools/src/pagemap.h:211-216 | the two upper levels and the leaf level share the bits |
| `PackedCaches.Layout.UpperIsTag` | gperftools/src/packed-cache-inl.h:198-206 | casting, shifting and masking yield exactly the part of the key that is not in the hash, in both layouts |
| `PackedCaches.Layout.MatchIffTag` | gperftools/src/packed-cache-inl.h:192-217 | an entry matches exactly the keys with its stored part, and yields its value |
| `PackedCaches.Layout.OneKey` | gperftools/src/packed-cache-inl.h:208-210 | hash and stored part determine the key |
| `PackedCaches.PackedCache.constructor` | gperftools/src/packed-cache-inl.h:147-154 | holds the keys below the table's length with the initial value |
| `PackedCaches.PackedCache.Put` | gperftools/src/packed-cache-inl.h:156-160 | the pair is held, and of the others exactly those of other slots, unchanged |
| `PackedCaches.PackedCache.Has` | gperftools/src/packed-cache-inl.h:162-165 | whether the key is held |
| `PackedCaches.PackedCache.GetOrDefault` | gperftools/src/packed-cache-inl.h:167-175 | a hit is the value last put for the key, a miss the default |
| `PackedCaches.PackedCache.Clear` | gperftools/src/packed-cache-inl.h:177-183 | the same as putting the value for every key below the table's length |
| `SizeClassCache.PackedPut` | gperftools/src/page_heap.h:190-190 | the packed cache's write is a write of the protocol |
| `SizeClassCache.PutsKeeps` | gperftools/src/tcmalloc.cc:59-65 | a write that is right for its page misleads about no other page |
| `SizeClassCache.HandLargeKeeps` | gperftools/src/tcmalloc.cc:957-961 | handing out a large object after marking its page keeps the invariant, whatever was stale |
| `SizeClassCache.CachePageKeeps` | gperftools/src/central_freelist.cc:328-333 | Populate's unlocked writes keep the invariant |
| `SizeClassCache.HitIsClass` | gperftools/src/tcmalloc.cc:1158-1161 | a non-zero hit for a placed object is its class |
| `SizeClassCache.RecordKeeps` | gperftools/src/tcmalloc.cc:1174-1176 | the unlocked write in free() or a size query keeps the invariant |
| `SizeClassCache.DeleteLargeKeeps` | gperftools/src/tcmalloc.cc:1186-1197 | deleting a large object's span leaves every other object's entry right |
| `SizeClassCache.StepKeeps` | gperftools/src/tcmalloc.cc:1143-1243 | every step of every thread keeps the invariant |
| `SizeClassCache.NeverMisled` | gperftools/src/tcmalloc.cc:59-65 | in every run, with any number of concurrent size queries, the cache says "unknown" or the right class about every object that is live or may be handed out, and free() uses the right class |
| `SizeClassCache.FreeEnds` | gperftools/src/tcmalloc.cc:1143-1197 | in every run free() ends with a small object on a free list, and with a large one gone together with its span |
| `Extents.CanonicalForm` | zen.cpp:144-228 | equal free space, maximally coalesced, means equal extents |
| `Extents.TakenOk` | zen.cpp:101-134 | taking from the front of a gap frees nothing else and stays coalesced |
| `Extents.GivenOk` | zen.cpp:144-228 | giving a used block back adds exactly its clusters and stays coalesced |
| `Extents.TakeGiveBack` | zen.cpp:101-228 | taking a prefix and giving it back restores the same extents |
| `Multimaps.InsertedOk` | zen.cpp:125-126 | inserting keeps the entries sorted and distinct and adds exactly the one |
| `Multimaps.SortedWithout` | zen.cpp:112-119 | removing an entry keeps the order and adds nothing |
| `Multimaps.Erase` | zen.cpp:112-119 | the loop over the equal range erases the first such entry and no other |
| `Gaps.Ample` | zen.cpp:65-66 | the larger of 512 clusters more and half as much again |
| `Gaps.GapEnumeration.constructor` | zen.hpp:203-206 | a scanned volume has consistent indices |
| `Gaps.GapEnumeration.Filter` | zen.cpp:90-99 | both indices hold exactly the scanned extents |
| `Gaps.GapEnumeration.Best` | zen.cpp:45-88 | for any barred start, also one of no known gap: nothing exactly when no eligible gap is large enough; otherwise an exact fit, else the smallest ample gap, else the largest |
| `Gaps.GapEnumeration.EraseSize` | zen.cpp:112-119 | the region's entry, and no other, leaves the index by size |
| `Gaps.GapEnumeration.Pop` | zen.cpp:101-134 | both indices hold the extents with exactly these clusters taken; a gap that is too short is a trap that loses its entry by size |
| `Gaps.GapEnumeration.PopFile` | zen.cpp:136-142 | blocks that lie at the front of a gap in their turn are all taken, one after the other; any other file ends in consistent indices or the trap |
| `Gaps.TakenAllFree` | zen.cpp:136-142 | the free clusters are then the old ones without the blocks', and the blocks were free |
| `Gaps.GapEnumeration.PushBlock` | zen.cpp:151-226 | exactly the block's clusters become free, whichever neighbours merge; both indices agree and stay coalesced |
| `Gaps.GapEnumeration.PushFile` | zen.cpp:144-228 | the free clusters are the old ones and those of all blocks |
| `Gaps.GapEnumeration.PopThenPush` | zen.cpp:101-228 | popping a gap prefix and pushing it back restores the same extents |
| `Files.Order` | zen.cpp:232-239 | the circular block list is entered at its first block of least start |
| `Files.FileEnumeration.constructor` | zen.cpp:241-276 | lists exactly the files with a block map that are not excluded |
| `Files.FileEnumeration.FindAt` | zen.cpp:278-296 | the file returned is the one listed file with a block that starts there, or there is none; the lazily built index is exact |
| `Files.FileEnumeration.Pop` | zen.cpp:298-317 | exactly this file is unlisted and the index by start stays empty or exact |
| `Files.FileEnumeration.Push` | zen.cpp:319-332 | exactly this file is listed, under its new blocks, and the index by start stays empty or exact |
| `Files.FileEnumeration.FindBest` | zen.cpp:334-496 | listed files that start behind the gap, together no larger than it, and exactly as large unless partial filling is allowed; with partial filling, a listed file that would still fit is matched by a chosen one of its size that starts no earlier; the ids are those of an outcome of the choice |
| `FileChoice.Perfect` | zen.cpp:347-363 | the file of exactly the gap's size that starts last, if any starts behind the gap |
| `FileChoice.Consider` | zen.cpp:393-405 | the candidate list after one more file |
| `FileChoice.Gather` | zen.cpp:380-413 | the pass takes a largest file that fits as long as more than 256 clusters are left; then every file that fits has a candidate of its size that starts no earlier |
| `FileChoice.GatheredSound` | zen.cpp:366-413 | what was taken and what is left make up the gap; candidates fit, start behind it, and are at most four of a size; there are candidates only once at most 256 clusters are left |
| `FileChoice.PassMisses` | zen.cpp:366-413 | both properties hold of the whole pass over any index; files are taken largest first if the index is ordered by size |
| `FileChoice.Combine` | zen.cpp:416-495 | with no, one or several candidates, the chosen ones fill as much as any combination |
| `FileChoice.ExactIff` | zen.cpp:486-490 | an exact filling is found exactly when some combination of candidates is one |
| `FileChoice.OutcomeFilling` | zen.cpp:334-496 | every result consists of indexed files behind the gap, fits, and fills it exactly if nothing less was asked for |
| `FileChoice.FindBest` | zen.cpp:334-496 | the result is such an outcome, on all exits, and with partial filling a maximal one |
| `FileChoice.OutcomeMaximal` | zen.cpp:334-496 | with partial filling, every file that would still fit is matched by a chosen one of its size that starts no earlier |
| `FileChoice.NotEmpty` | zen.cpp:334-496 | so something is chosen whenever a file behind the gap fits into it |
| `FileChoice.ExactFound` | zen.cpp:366-495 | a gap of at most 256 clusters that files of different sizes can fill exactly is filled exactly |
| `FileChoice.SameFileTwice` | zen.cpp:393-405 | two files of one size up to 128 clusters, the one that starts last indexed first, and a gap of twice the size: every outcome is that file twice |
| `FileChoice.ConsideredDistinct` | zen.cpp:393-405 | considering a file leaves the candidates distinct exactly when there is no room for it or no candidate of its size starts before it |
| `FileChoice.RoomDistinct` | zen.cpp:393-405 | with room for the file, the candidates after it are distinct exactly when they were, the file is new and no candidate of its size starts before it |
| `FileChoice.PassDistinctIff` | zen.cpp:366-413 | for a gap of at most 256 clusters and at most four eligible files of a size, the candidates are distinct exactly when eligible files of one size are indexed by start, and then they are all eligible files |
| `FileChoice.OutcomeDistinct` | zen.cpp:334-496 | no file is returned twice when files of one size are indexed by start |
| `Knapsack.Recurrence` | zen.cpp:467-485 | the better of leaving a candidate out and taking it is optimal: most value, then fewest items |
| `Knapsack.Fill` | zen.cpp:463-485 | every table entry is realised by its item set and no other choice of that weight beats it |
| `AddressMaps.AddressMap.constructor` | gperftools/src/addressmap-inl.h:269-276 | the empty map |
| `AddressMaps.AddressMap.FindCluster` | gperftools/src/addressmap-inl.h:213-232 | the cluster's place in its chain, or it does not exist |
| `AddressMaps.AddressMap.MakeCluster` | gperftools/src/addressmap-inl.h:213-232 | the cluster exists afterwards and no block's list changed |
| `AddressMaps.AddressMap.Find` | gperftools/src/addressmap-inl.h:288-304 | lookup in the map it stands for |
| `AddressMaps.AddressMap.Insert` | gperftools/src/addressmap-inl.h:307-336 | the map with the pair; entries come in batches of 64 and none is lost |
| `AddressMaps.AddressMap.FindAndRemove` | gperftools/src/addressmap-inl.h:339-356 | the map without the key, and its old value; the entry goes to the free list |
| `AddressMaps.AddressMap.WalkCluster` | gperftools/src/addressmap-inl.h:368-389 | the walk down one cluster settles the search or rules the cluster out |
| `AddressMaps.AddressMap.FindInside` | gperftools/src/addressmap-inl.h:358-402 | the range that contains the key; nothing exactly when none does, if no range exceeds the bound; the walk back ends |
| `AddressMaps.OneRange` | gperftools/src/addressmap-inl.h:128-135 | non-overlapping ranges: at most one contains a key |
| `AddressMaps.AddressMap.Iterate` | gperftools/src/addressmap-inl.h:404-420 | every stored pair is visited exactly once |
| `HeapChecker.LeakChecker.MarkAsLive` | gperftools/src/heap-profile-table.cc:278-285 | true exactly for a recorded allocation that was not marked, which is then marked |
| `HeapChecker.LeakChecker.TryWord` | gperftools/src/heap-checker.cc:1446-1494 | a word that points into an unmarked allocation marks and pushes it |
| `HeapChecker.LeakChecker.ScanObject` | gperftools/src/heap-checker.cc:1408-1497 | everything the region's aligned words point into is marked; what was new is pushed and counted once |
| `HeapChecker.LeakChecker.MarkNext` | gperftools/src/heap-checker.cc:1395-1498 | one round keeps the invariant and makes progress |
| `HeapChecker.LeakChecker.IgnoreLiveObjects` | gperftools/src/heap-checker.cc:1390-1505 | the loop ends with exactly the reachable allocations marked besides those marked before, each counted once with its bytes |
| `HeapChecker.LeakChecker.MarkGroups` | gperftools/src/heap-checker.cc:1092-1232 | loading and marking the groups of roots one after the other marks exactly what is reachable from any of them, each counted once |
| `HeapChecker.Finished` | gperftools/src/heap-checker.cc:1390-1505 | an empty work list means marked and reachable agree |
| `HeapChecker.LeakChecker.NonLiveSnapshot` | gperftools/src/heap-profile-table.cc:567-582 | exactly the unmarked allocations not in the base, and no mark left |
| `HeapChecker.LeakChecker.Check` | gperftools/src/heap-checker.cc:1092-1238 | marking from all groups of roots and taking the snapshot reports exactly the allocations unreachable from any group and not in the base, and restores the table |
| `HeapChecker.IgnoredReported` | gperftools/src/heap-profile-table.cc:490-501 | an ignored allocation is reported |
| `HeapChecker.IgnoredLeftOut` | gperftools/src/heap-profile-table.cc:490-501 | ignored allocations are left out exactly when each is marked or in the base |
| `HeapLookup.HaveOnHeap` | gperftools/src/heap-checker.cc:2357-2370 | what the address map yields is the allocation the address points into; it misses only allocations the limit excludes, and none when no size exceeds it |
| `HeapLookup.TargetIs` | gperftools/src/heap-checker.cc:2357-2370 | the allocation that contains an address is the one found |
| `HeapLookup.TargetMarked` | gperftools/src/heap-checker.cc:1465-1484 | marking does not change what an address points into |
| `HeapLookup.LookupResolves` | gperftools/src/heap-checker.cc:1465-1484 | a mark phase that uses this lookup finds recorded allocations only, throughout |
| `LiveRegions.RemainingCovers` | gperftools/src/heap-checker.cc:1187-1213 | what is left of a range is exactly its addresses outside the region, in all five cases |
| `LiveRegions.Subtract` | gperftools/src/heap-checker.cc:1181-1214 | one region cut out of all ranges |
| `LiveRegions.SubtractAll` | gperftools/src/heap-checker.cc:1155-1220 | what is left covers exactly the addresses outside all regions |
| `HeapProfiles.HeapProfileTable.constructor` | gperftools/src/heap-profile-table.cc:224-238 | the empty table is accounted for |
| `HeapProfiles.HeapProfileTable.RecordAlloc` | gperftools/src/heap-profile-table.cc:224-238 | the record, the stack's bucket and the total grow by the allocation; per stack and in total, allocations less frees are what the table holds, exactly when the address was not recorded |
| `HeapProfiles.HeapProfileTable.RecordFree` | gperftools/src/heap-profile-table.cc:240-249 | the record goes, and its bucket and the total count one more free of its bytes; the accounts stay right; an unknown address changes nothing |
| `ProfileDatas.ProfileData.constructor` | gperftools/src/profiledata.cc:79-89 | no profile is being collected |
| `ProfileDatas.ProfileData.Start` | gperftools/src/profiledata.cc:91-127 | starts exactly if no profile is running and the file opens; the stream begins with the header slots and the counters at zero; a running profile is not touched |
| `ProfileDatas.ProfileData.Evict` | gperftools/src/profiledata.cc:65-77 | the entry's count, depth and frames are appended to the stream and the buffer never overflows |
| `ProfileDatas.ProfileData.FlushEvicted` | gperftools/src/profiledata.cc:323-331 | the stream is written out unchanged and its bytes are counted |
| `ProfileDatas.ProfileData.Place` | gperftools/src/profiledata.cc:278-306 | the trace's entry in its bucket, or the one with the smallest count |
| `ProfileDatas.ProfileData.Add` | gperftools/src/profiledata.cc:260-319 | the trace, cut to 64 frames, is counted once more in the table or the stream, and is in the table; an earlier entry of its bucket may go to the stream |
| `ProfileDatas.ProfileData.FlushTable` | gperftools/src/profiledata.cc:239-258 | the file holds the header and records that count every trace as often as it was added |
| `ProfileDatas.ProfileData.Stop` | gperftools/src/profiledata.cc:164-196 | the file is header, records and trailer, and decodes to the period and records that count every trace as often as it was added |
| `ProfileDatas.DecodeStream` | gperftools/src/profiledata.cc:65-77 | reading header, records and trailer gives the records back |
| `ProfileDatas.Kept` | gperftools/src/profiledata.cc:265-265 | the first 64 frames of a stack, or all of a shorter one |

## Left out

- Sampling, stack unwinding, symbolization, signals and malloc hooks: platform code.
- `SizeMap::Init`: its table is a parameter with the facts the code relies on.
- Thread caches: thread_cache.h is not part of this model; their objects count as held by clients.
- Field widths of spans and 32-bit counters: naturals are used; entries and counters do not wrap. Doubles are real numbers without rounding.
- Metadata allocation beyond its growth of the memory taken from the system, and PreallocateMoreMemory.
- `PageHeapClass.PageHeap.New`: under a limit, says that the heap grows exactly when it can only if the limit's answer does not hang on releases that the system may refuse; `PageHeapClass.PageHeap.GrowHeap` is exact in every case.
- `PageHeapClients.IterateOverRanges`: assumes that the heap does not change between two batches.
- The small-object branches of `do_memalign` and `do_malloc`: they only pick a size class.
- `Gaps.GapEnumeration.Best`: does not model wrap-around of the size threshold near 2^64.
- `Gaps.GapEnumeration.PushFile`: an isolated block needs an existing region to be inserted after, as the code does.
- `FileChoice.OutcomeDistinct`: goes one way for results; the exact condition is proved for the candidates, by `FileChoice.PassDistinctIff`. Whether a duplicated candidate is chosen depends on the ties of the table.
- Hash chains and block lists of `AddressMap` and the buckets of the heap profiler are sequences and maps; pointer aliasing inside them is not modelled.
- Which memory regions are exempt from subtraction by their callers: `LiveRegions.SubtractAll` takes the regions to subtract.
- Volume and disk scanning, path filters, options and console output of StopGap.
- memory_region_map.cc, system-alloc.cc and memfs_malloc.cc.
- Text dumps of profiles, /proc/self/maps and logging.
