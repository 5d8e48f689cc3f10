# Verification of the trace writer and its allocator

A Dafny model of the hard parts of the repository: the bundled allocator (mimalloc 2.1.2) and
three small concurrent or in-place data structures of the trace writer. Concurrent protocols are
transition systems whose steps are single atomic operations; every safety result is about all
reachable states, so about all runs and interleavings of any number of threads. Code that changes
memory in place is modelled as classes with the same fields and arrays, with methods that take the
same branches.

`dafny verify dfyconfig.toml` checks everything.

| module | what it models |
|---|---|
| `CrossThreadFree`, `CrossThreadFreeSafety` | blocks freed by other threads, the four-state page flag, delayed lists, heap deletion, thread exit, reclaim |
| `Spans`, `SliceTable`, `CommitMasks`, `Segments`, `SpanSearch` | the slices of a segment: layout, slice array, queues by size, commit and purge masks, the walks over abandoned segments, the best-fit search |
| `AbandonedStack`, `AbandonedStackSafety` | the tagged stack of abandoned segments, the visited stack, the reader count |
| `BitmapClaims`, `BitmapSearch` | arena blocks: concurrent claims across fields with rollback; the search and the purge pass of one thread |
| `SizeBins`, `PageQueues` | size classes, page queues, the direct index of small pages, taking over a heap's queues |
| `BlockLookup`, `AlignedBlocks` | from an address back to page and block; aligned allocation |
| `FreeListBuilder` | building a page's free list, in order or shuffled |
| `ProbedTable`, `LockFreeHash`, `LockFreeReads` | the grow-only hash map: the writer's code, and readers beside it |
| `TraceBuffers`, `TraceBufferSafety` | per-thread buffer chains, the drainer, the block pool |
| `PacketRing` | the ring of recent packets |
| `EventBatches` | delta-encoded CPU event batches |
| `LinkedQueues`, `Placement`, `Bits`, `Options` | shared: doubly linked queues, things on lists, powers of two |

How to read the state: `Lists` (in `Placement`) maps each anchor variable of the source to the
things reachable from it, in order; "exactly one place" is a statement about that map. A `fault`
field is set by a step that reads or writes something already given back, or that finds an
assertion of the source violated; the `NeverFaults` lemmas say it never is.

The invariants carry the main safety statements. `CrossThreadFree.Inv` is the four-state protocol
with the counting law; `Segments.Segment.Valid` is the segment check of
`src/mimalloc/src/segment.c:255-303` and more: an exact tiling with right head counts and back
offsets, no two free spans side by side, `used + 1` pages, every slice of a page committed and not
scheduled to be given back, each free span on exactly the queue for its size when the segment has
an owner and on none otherwise. `CommitMasks.CommitState.Valid` says that only committed slices
are scheduled. `PageQueues.Heap.Valid` says that the index, the queues, the page fields and the
count agree. `PacketRing.Ring.Valid` says that the two ranges are whole packets, the latest ones.

Where the code and its comments disagree the code is followed:

- The comment at `src/mimalloc/include/mimalloc/types.h:271` relates `used` to the thread-free
  list; the assertion at `src/mimalloc/src/page.c:110-111`, without it, is what holds.
- The comment at `src/mimalloc/src/page-queue.c:86` gives 12.5% as the worst waste of a size
  class. 17 words get a block of 20 (`SizeBins.SeventeenWords`). Of the sizes above 8 words
  `SizeBins.WasteEighth` says exactly which keep to the eighth, and `SizeBins.WasteFifth` proves
  that all waste less than a fifth and that some waste a fifth less one word. Up to 8 words
  (`SizeBins.WasteSmall`) 3 words waste a quarter, 5 words a sixth, and the others keep to the
  eighth.
- The comment at `src/Runtime/TraceLog/Private/Trace/Tail.cpp:210-211` says that a packet too big
  for the ring is dropped; the code drops it from the tail only and sends the data
  (`PacketRing.Ring.TailAppend`).
- The search for one or two bits does not look across fields, so it can fail although a run of
  two clear bits exists: `BitmapSearch.MissPair` is the search on such a bitmap,
  `BitmapSearch.FindAndClaim` says for each count exactly when the search fails, and
  `BitmapSearch.MissedRuns` which runs it misses.
- An event 2^63 cycles or more after the one before is not read back, and neither is one before
  it, since the difference wraps round: `EventBatches.RoundTrip` gives the exact condition,
  `EventBatches.CounterGoesBack` and `EventBatches.ExactlyHalf` what is read instead.
- The comment at `src/mimalloc/src/segment.c:1059-1061` speaks of a tag of 20 bits; the mask has 25.

## Model

| member | source | states |
|---|---|---|
| `CrossThreadFree.StepKeepsInv` | src/mimalloc/include/mimalloc/types.h:284-290 | Every step of every thread (freer, page owner, pass over a delayed list, heap deletion, thread exit, reclaim) keeps the whole invariant: each block in one place, `used + free + local_free == capacity`, FREEING only while a freer is inside, no freed block stranded, delayed lists only on live heaps |
| `CrossThreadFree.KeepEnterFree` | src/mimalloc/src/alloc.c:509-515 | Entering a remote free keeps the protocol; the client gives up the block |
| `CrossThreadFree.KeepPushThreadFree` | src/mimalloc/src/alloc.c:441-446 | Pushing on `xthread_free` when the flag is not USE_DELAYED strands nothing: some block of the page is already on its way to the owner, or the page is NEVER |
| `CrossThreadFree.KeepClaimPage` | src/mimalloc/src/alloc.c:436-440 | Setting FREEING makes this freer the only one between the two flag updates |
| `CrossThreadFree.FreerStaysKeep` | src/mimalloc/src/alloc.c:436-467 | Claiming the page, reading its heap and leaving FREEING keep the protocol and move no block: the page of a freer exists, and under FREEING its heap is there to be read, so the branch for a missing heap, which would lose the block, is not taken |
| `CrossThreadFree.KeepPushDelayed` | src/mimalloc/src/alloc.c:453-458 | The push on the delayed list goes to a live heap |
| `CrossThreadFree.KeepReleasePage` | src/mimalloc/src/alloc.c:460-467 | Resetting FREEING to NO_DELAYED leaves a block of the page waiting for the owner |
| `CrossThreadFree.KeepNewPage` | src/mimalloc/src/page.c:274-296 | A fresh page starts with the counting law |
| `CrossThreadFree.KeepExtend` | src/mimalloc/src/page.c:610-653 | New blocks below the raised capacity are all on `free` |
| `CrossThreadFree.KeepMalloc` | src/mimalloc/src/alloc.c:29-37 | Taking a block moves it to the client and counts it |
| `CrossThreadFree.KeepFreeLocal` | src/mimalloc/src/alloc.c:575-587 | A local free moves the block to `local_free` and uncounts it |
| `CrossThreadFree.CollectKeepsInv` | src/mimalloc/src/page.c:182-216 | Collecting the thread-free list keeps the whole invariant, so it uncounts exactly the blocks it moves, and leaves the list empty |
| `CrossThreadFree.ThreadFreeFits` | src/mimalloc/src/page.c:199-207 | The thread-free list never exceeds the capacity, so the corruption branch is not taken |
| `CrossThreadFree.KeepCollectLocalFree` | src/mimalloc/src/page.c:226-246 | Moving `local_free` to `free` keeps the counting law |
| `CrossThreadFree.AllHome` | src/mimalloc/src/page.c:408-428 | When `free` and `local_free` together hold as many blocks as the capacity, no block of the page is anywhere else |
| `CrossThreadFree.PageKeepsInv` | src/mimalloc/src/page.c:408-428 | Every step of the owner of a page keeps the whole invariant; in particular a page with `used == 0` can be given back |
| `CrossThreadFree.KeepTakeDelayed` | src/mimalloc/src/page.c:319-323 | Taking over the delayed list keeps every block waiting |
| `CrossThreadFree.TryDelayedKeepsInv` | src/mimalloc/src/page.c:147-172 | Trying to use delayed free again keeps the whole invariant, with the give-up on FREEING and the branch that leaves NEVER alone |
| `CrossThreadFree.KeepGiveUp` | src/mimalloc/src/page.c:325-338 | Giving up on a page that is FREEING keeps the block on its way: the pass will reinsert it and knows it has not freed everything |
| `CrossThreadFree.CollectDelayedKeepsInv` | src/mimalloc/src/alloc.c:604-614 | Collecting after the flag was reset keeps the whole invariant: what was pushed in between is picked up |
| `CrossThreadFree.KeepFreeDelayed` | src/mimalloc/src/alloc.c:597-619 | The delayed block is freed once, on its own page |
| `CrossThreadFree.KeepReinsertDelayed` | src/mimalloc/src/page.c:329-338 | A block the pass gave up on goes back on the delayed list and is not lost |
| `CrossThreadFree.KeepEndPass` | src/mimalloc/src/page.c:312-316 | A pass that freed everything leaves an empty list; another one is repeated by a drain |
| `CrossThreadFree.KeepBeginAbsorb` | src/mimalloc/src/heap.c:386-395 | Deleting a heap starts with its pages still delaying to it |
| `CrossThreadFree.KeepMovePage` | src/mimalloc/src/page-queue.c:305-309 | Changing `xheap` of a page that may be FREEING keeps the old heap alive for its freer |
| `CrossThreadFree.KeepUseMoved` | src/mimalloc/src/page-queue.c:310-314 | Resetting the flag waits for the freer, so afterwards only the new heap is reached |
| `CrossThreadFree.KeepEndAbsorb` | src/mimalloc/src/heap.c:397-409 | Once all pages have moved the old heap only drains |
| `CrossThreadFree.KeepMarkNever` | src/mimalloc/src/heap.c:110-117 | Marking a page NEVER before abandoning it |
| `CrossThreadFree.KeepEndMarking` | src/mimalloc/src/heap.c:143-150 | After marking, nothing new arrives on the delayed list |
| `CrossThreadFree.KeepAbandonPage` | src/mimalloc/src/page.c:378-403 | A page is abandoned only when it is NEVER |
| `CrossThreadFree.DroppedEmpty` | src/mimalloc/src/heap.c:241-249 | A heap that can be dropped has nothing on its three lists |
| `CrossThreadFree.DropKeepsInv` | src/mimalloc/src/heap.c:241-249 | Resetting the heap keeps the whole invariant, so it loses no block |
| `CrossThreadFree.KeepReclaimPage` | src/mimalloc/src/segment.c:1341-1347 | Reclaiming sets the heap while the page is still NEVER |
| `CrossThreadFree.KeepReclaimUse` | src/mimalloc/src/segment.c:1348 | Overriding NEVER once the heap is set |
| `CrossThreadFree.ReclaimCollectKeepsInv` | src/mimalloc/src/segment.c:1349 | Collecting a reclaimed page keeps the whole invariant, so no remote free made meanwhile is left behind |
| `CrossThreadFreeSafety.RunKeepsInv` | src/mimalloc/src/alloc.c:402-468 | The invariant holds at the end of every run of any number of threads |
| `CrossThreadFreeSafety.NeverFaults` | src/mimalloc/src/alloc.c:460-466 | In no interleaving is a page or heap touched that is gone, a page abandoned that still takes delayed frees, or a flag reset that is not FREEING |
| `CrossThreadFreeSafety.OneHome` | src/mimalloc/src/alloc.c:402-468 | Every block below the capacity is in exactly one place at one position; the page lists hold blocks of their own page |
| `CrossThreadFreeSafety.NothingElse` | src/mimalloc/src/page.c:182-249 | Whatever is on any list is a block below the capacity of an existing page |
| `CrossThreadFreeSafety.UnusedPageIsWhole` | src/mimalloc/src/page.c:110-111 | `used + free + local_free == capacity`; a page with `used == 0` has all blocks on its own lists, is not FREEING or NO_DELAYED, and no remote free of it is in progress |
| `CrossThreadFreeSafety.NoneStranded` | src/mimalloc/include/mimalloc/types.h:284-290 | A FREEING or NO_DELAYED page has a block on its way to the owner: on the delayed list of the heap that owns the page or of one that has been absorbed and is to be drained, in the chain a pass of such a heap has taken, or carried by a freer to such a heap. So has a page with remote frees pending, unless it is NEVER or its owner is about to collect. A page is NEVER only when abandoned, about to be, or just being reclaimed |
| `CrossThreadFreeSafety.RunKeepsNever` | src/mimalloc/src/heap.c:110-150 | In every run a NEVER page is abandoned, of a heap being left, or being reclaimed |
| `CrossThreadFreeSafety.FreeingPushesOnLiveHeap` | src/mimalloc/src/alloc.c:448-458 | A freer under FREEING is alone and the heap it read is live |
| `CrossThreadFreeSafety.RetiredUnreachable` | src/mimalloc/src/heap.c:386-417 | A heap that was absorbed or abandoned and drained has an empty delayed list, no freer has read it or can read it, and its remaining pages are NEVER |
| `CrossThreadFreeSafety.RetiredForGood` | src/mimalloc/src/heap.c:119-171 | Retirement is final: no later step puts anything on the list |
| `CrossThreadFreeSafety.DropLosesNothing` | src/mimalloc/src/heap.c:241-249 | The list that `mi_heap_reset_pages` clears is empty |
| `LinkedQueues.Queues.constructor` | src/mimalloc/src/init.c:53-67 | All queues empty |
| `LinkedQueues.Queues.PushFront` | src/mimalloc/src/segment.c:207-216 | The four link updates put the element at the front and change no other queue |
| `LinkedQueues.Queues.PushBack` | src/mimalloc/src/page-queue.c:281-291 | The element becomes the last of its queue |
| `LinkedQueues.Queues.Delete` | src/mimalloc/src/segment.c:225-235 | The element is taken out of the middle or either end; an element on no queue is left alone |
| `LinkedQueues.Queues.Append` | src/mimalloc/src/page-queue.c:317-330 | A whole queue goes behind another |
| `LinkedQueues.NeighbourOf` | src/mimalloc/src/page-queue.c:119-132 | Links are symmetric: `next` of one is the other exactly when `prev` of the other is the first |
| `Spans.CoveredOnce` | src/mimalloc/src/segment.c:255-303 | Every slice is in exactly one span |
| `Spans.Canonical` | src/mimalloc/src/segment.c:650-690 | Two coalesced layouts with the same pages are the same: the order of splits, frees and merges does not matter |
| `Spans.OnlyInfo` | src/mimalloc/src/segment.c:939-963 | Without pages a segment is the information span and one free span |
| `Spans.JoinFree` | src/mimalloc/src/segment.c:665-685 | Joining two free spans changes no page |
| `Spans.SplitUsed` | src/mimalloc/src/segment.c:747-757 | Cutting a span keeps the rest of the layout |
| `Spans.FreePage` | src/mimalloc/src/segment.c:980-1009 | Marking a page free removes exactly that page |
| `CommitMasks.NextRun` | src/mimalloc/src/segment.c:101-144 | Finds the next maximal run of set bits, across word boundaries, and skips none |
| `CommitMasks.CreateMask` | src/mimalloc/src/segment.c:55-80 | The mask built word by word is exactly the run |
| `CommitMasks.CommitState.constructor` | src/mimalloc/src/segment.c:843-849 | The first slices are committed, nothing is scheduled |
| `CommitMasks.CommitState.EnsureCommitted` | src/mimalloc/src/segment.c:463-499 | Succeeds iff the system commits or the run is committed already; then the run is committed and unscheduled, on failure nothing changes |
| `CommitMasks.CommitState.Purge` | src/mimalloc/src/segment.c:501-528 | Exactly the run is unscheduled, and uncommitted when the system took it |
| `CommitMasks.CommitState.TryPurge` | src/mimalloc/src/segment.c:570-591 | Runs iff something is scheduled and it is time or forced; visits maximal runs covering each scheduled slice once, and ends with an empty purge mask |
| `CommitMasks.CommitState.PurgeRuns` | src/mimalloc/src/segment.c:579-590 | The loop over the runs |
| `CommitMasks.CommitState.SchedulePurge` | src/mimalloc/src/segment.c:530-568 | Only committed slices of the run are added; a purge happens exactly when the schedule expired long enough ago (or there is no delay) and then gives back maximal runs of all that is scheduled |
| `CommitMasks.OnlyWithRun` | src/mimalloc/src/segment.c:546-557 | What scheduling takes away was scheduled before or is in the run |
| `CommitMasks.OnlyScheduled` | src/mimalloc/src/segment.c:579-588 | Only scheduled slices are ever taken away |
| `SliceTable.SliceBinMonotone` | src/mimalloc/src/segment.c:177-193 | A longer span never goes on an earlier queue |
| `SliceTable.SliceBinExact` | src/mimalloc/src/segment.c:177-186 | Up to 8 slices each length has its own queue |
| `SliceTable.QueuedAfter` | src/mimalloc/src/segment.c:687-689 | Around a freed span the queues hold exactly the free spans |
| `Segments.Segment.constructor` | src/mimalloc/src/segment.c:859-936 | A fresh normal segment: information span plus one queued free span |
| `Segments.Segment.SpanFree` | src/mimalloc/src/segment.c:603-630 | First and last slice written, memory scheduled, span queued by size iff the segment is owned |
| `Segments.Segment.MarkUsed` | src/mimalloc/src/segment.c:709-739 | Head count, back offsets of the first 255 slices and of the last; nothing outside the span is written |
| `Segments.Segment.SpanAllocate` | src/mimalloc/src/segment.c:699-745 | The page is recorded, counted and backed; a failed commit changes no slice |
| `Segments.Segment.RemoveFromQueue` | src/mimalloc/src/segment.c:642-647 | The span leaves its queue, all others stay |
| `Segments.Segment.MergeNext` | src/mimalloc/src/segment.c:667-674 | The free span after is merged, no page changes |
| `Segments.Segment.MergePrev` | src/mimalloc/src/segment.c:675-685 | The free span before is found by its back offset and merged |
| `Segments.Segment.FreeCoalesce` | src/mimalloc/src/segment.c:650-690 | The layout is coalesced again with the same pages; the merged span is queued by its size and what it swallowed is not |
| `Segments.Segment.SliceSplit` | src/mimalloc/src/segment.c:747-757 | The layout is split at the count and the rest queued |
| `Segments.Segment.AllocateFrom` | src/mimalloc/src/segment.c:771-783 | Success adds exactly one page at the span start; failure restores the very layout there was |
| `Segments.Segment.RestoreCut` | src/mimalloc/src/segment.c:778-782 | Undoing a cut gives back the old layout |
| `Segments.Segment.PageClear` | src/mimalloc/src/segment.c:980-1009 | Removes exactly one page; returns the start of the merged span, which may lie before the page |
| `Segments.Segment.CheckFree` | src/mimalloc/src/segment.c:1273-1316 | The walk ends, gives back exactly the pages that are free by now although merging moves it backwards, keeps the segment valid, and answers yes iff some span or page can serve the request |
| `Segments.Segment.CheckNext` | src/mimalloc/src/segment.c:1282-1314 | One stop of that walk |
| `Segments.Segment.Drain` | src/mimalloc/src/segment.c:945-962 | Every free span leaves its queue |
| `Segments.Segment.Dispose` | src/mimalloc/src/segment.c:939-970 | A segment without pages is the information span and one free span, and nothing of it is queued any more |
| `Segments.Segment.Abandon` | src/mimalloc/src/segment.c:1211-1241 | The layout stays, nothing is queued, the segment is still valid without an owner |
| `Segments.Segment.ReclaimWalk` | src/mimalloc/src/segment.c:1320-1370 | The new owner visits every span once: `abandoned` ends at 0, each free span is on exactly the queue for its size, the kept pages are handed over in order |
| `Segments.Segment.VisitNext` | src/mimalloc/src/segment.c:1334-1368 | One stop of that walk |
| `Segments.Segment.Reclaim` | src/mimalloc/src/segment.c:1320-1379 | The segment stays alive iff a page is in use; a dead one has nothing queued |
| `Segments.Segment.PageFree` | src/mimalloc/src/segment.c:1011-1030 | Frees one page; the last one takes the segment, and a segment with abandoned pages only is abandoned |
| `Segments.Segment.PageAbandon` | src/mimalloc/src/segment.c:1243-1258 | One more page abandoned; the last one abandons the segment |
| `SpanSearch.SearchQueue` | src/mimalloc/src/segment.c:765-786 | A queue is searched from its front |
| `SpanSearch.FindBest` | src/mimalloc/src/segment.c:761-790 | The search from the best fit up |
| `SpanSearch.FindSpan` | src/mimalloc/src/segment.c:759-791 | Finds a usable span on the lowest bin that has one; fails only when no suitable segment has a free span that is long enough |
| `SpanSearch.FindAndAllocate` | src/mimalloc/src/segment.c:759-791 | Search and cut together: a success turns the first slices of a best fit into a page and changes no other segment, a failure changes no layout; without a failed commit it fails only when no suitable segment has a free span that is long enough. All segments stay valid and together |
| `SpanSearch.StillTogether` | src/mimalloc/src/segment.c:759-791 | After one segment was used, the untouched ones still agree with the shared queues |
| `BlockLookup.MapsBack` | src/mimalloc/include/mimalloc/internal.h:410-452 | Any address in a block of a page, less than the largest alignment behind the start of the page, leads to the segment, the page and the start of the block; in a page of a normal segment that is every address, in a huge page every address an aligned allocation hands out |
| `BlockLookup.NormalLeads` | src/mimalloc/src/segment.c:699-745 | In a page of a normal segment all slices lead back to the first |
| `BlockLookup.MarkHuge` | src/mimalloc/src/segment.c:711-739 | The back pointers written for a huge page, clamped to the slice array, lead back from all slices up to the maximum offset; entries outside the page are left alone |
| `BlockLookup.NearSlices` | src/mimalloc/include/mimalloc/types.h:195-196 | An address is that near exactly when its slice is at most the maximum slice offset behind the first one, which is why the offset is chosen so |
| `BlockLookup.WhoPointsBack` | src/mimalloc/src/segment.c:718-739 | In any page exactly the first 256 slices and the last one are sure to lead back |
| `BlockLookup.Adjust` | src/mimalloc/src/alloc-aligned.c:57-61 | The step is below the alignment and lands on it |
| `BlockLookup.AdjustFits` | src/mimalloc/src/alloc-aligned.c:51-61 | The over-allocated block has room after the step, and the result stays inside the block even for size 0 |
| `AlignedBlocks.PageBlocks.Malloc` | src/mimalloc/src/alloc.c:29-37 | Pops the first free block |
| `AlignedBlocks.PageBlocks.MallocAligned` | src/mimalloc/src/alloc-aligned.c:49-68 | The result is aligned at its offset, fits, and lies in the block taken; the page remembers inner addresses |
| `AlignedBlocks.PageBlocks.Free` | src/mimalloc/src/alloc.c:562-587 | The very block that was taken comes back, from any address handed out |
| `AlignedBlocks.MallocAlignedAt` | src/mimalloc/src/alloc-aligned.c:93-129 | For every power-of-two alignment up to the maximum and any size, from pages of normal segments and from huge pages: aligned at offset, fits, one block taken from the page used; bad requests get nothing and change nothing |
| `AlignedBlocks.MallocAlignedFallback` | src/mimalloc/src/alloc-aligned.c:19-90 | The regular path and the over-allocating path, from the page for each |
| `AlignedBlocks.SomePage` | src/mimalloc/src/segment.c:1594-1618 | For every size there is a page that can serve it, in a normal segment exactly up to half of a segment and a huge one above; so the success clause is about every request |
| `AlignedBlocks.RegularAligned` | src/mimalloc/src/alloc-aligned.c:28-33 | Blocks for a small multiple of the alignment are all aligned |
| `AlignedBlocks.WayBack` | src/mimalloc/src/alloc.c:501-511 | An address handed out leads back to its block, through the page flag |
| `AbandonedStack.StepKeepsInv` | src/mimalloc/src/segment.c:1085-1205 | Every step of a push, a revisit, a pop or a return to the arena keeps the invariant of stacks, links, tag and readers |
| `AbandonedStackSafety.RunKeepsInv` | src/mimalloc/src/segment.c:1085-1205 | The invariant of stacks, links, tag and readers holds in every run |
| `AbandonedStackSafety.NoStaleRead` | src/mimalloc/src/segment.c:1189-1199 | A pop never reads the link of a segment that is back in the arena |
| `AbandonedStackSafety.Conserved` | src/mimalloc/src/segment.c:1091-1161 | Every segment is in exactly one place, once, and on a stack its link is its successor: no circle, none lost through push, pop and revisit |
| `AbandonedStackSafety.HeadsLead` | src/mimalloc/src/segment.c:1074-1080 | The two heads point to the first of each stack |
| `AbandonedStackSafety.PopTakesTop` | src/mimalloc/src/segment.c:1192-1198 | A pop whose swap succeeds takes the top and installs its true successor, however often the top was popped and pushed in between |
| `AbandonedStackSafety.ReturnIsSafe` | src/mimalloc/src/segment.c:379-400 | A segment is returned to the arena only when no pop can still read it |
| `BitmapClaims.RunKeepsInv` | src/mimalloc/src/bitmap.c:203-289 | The invariant of claims holds in every run |
| `BitmapClaims.NeverFaults` | src/mimalloc/src/bitmap.c:266-281 | No assertion of the claim or rollback fails, no release finds a clear bit, no purge touches a block of somebody else |
| `BitmapClaims.Exclusive` | src/mimalloc/src/arena.c:788-795 | The set bits are the disjoint union of what operations hold and of the bits beyond the last block |
| `BitmapClaims.OnlyOwnBits` | src/mimalloc/src/bitmap.c:266-281 | No step changes a bit another operation holds, in use or scheduled, although a rollback overwrites whole fields |
| `BitmapClaims.RolledBack` | src/mimalloc/src/bitmap.c:266-288 | When a rollback is over the bits are as if the claim had never been: a bit is set iff it is beyond the blocks or another operation holds it; only what the claim still had was cleared, and the others hold what they held |
| `BitmapSearch.FindInField` | src/mimalloc/src/bitmap.c:43-95 | The lowest position that fits in the field; the scan skips none |
| `BitmapSearch.FindAcross` | src/mimalloc/src/bitmap.c:203-264 | Fails only when no run starting in the field reaches far enough; success claims exactly the run |
| `BitmapSearch.FindFrom` | src/mimalloc/src/bitmap.c:100-109 | All fields are searched, wrapping: a run is found iff some field has one inside it; success claims exactly such a run, failure changes nothing |
| `BitmapSearch.FindAndClaim` | src/mimalloc/src/bitmap.c:294-317 | For three or more bits: succeeds iff the bitmap has a run of that many clear bits. For one or two bits: succeeds iff a field has such a run inside it. Success sets exactly one such run, failure changes nothing |
| `BitmapSearch.MissPair` | src/mimalloc/src/bitmap.c:296-299 | On the bitmap whose only clear bits are the last of one field and the first of the next, the search for two bits finds nothing and changes nothing, wherever it starts |
| `BitmapSearch.CrossingPairMissed` | src/mimalloc/src/bitmap.c:296-299 | That bitmap has a run of two clear bits, and no field has one inside it |
| `BitmapSearch.MissedRuns` | src/mimalloc/src/bitmap.c:294-317 | For one or two bits a field has a run iff the bitmap has one that is not a pair starting at the last bit of a field |
| `BitmapSearch.PurgeRange` | src/mimalloc/src/arena.c:491-512 | Exactly the scheduled blocks of the claimed range are purged |
| `BitmapSearch.PurgeFree` | src/mimalloc/src/arena.c:547-556 | Claim, purge, release: `inuse` ends as it was |
| `BitmapSearch.PurgeField` | src/mimalloc/src/arena.c:519-559 | Exactly the scheduled blocks of the field that are not in use are purged, of any mixture; each claimed part is purged in full |
| `BitmapSearch.PurgeArena` | src/mimalloc/src/arena.c:515-568 | The pass over the arena runs iff it is due or forced; then exactly the scheduled blocks that are not in use are purged, all others stay scheduled, and the schedule is cleared; `inuse` ends as it was |
| `SizeBins.BinServes` | src/mimalloc/src/page-queue.c:56-94 | A request fits the block of its bin, does not fit the bin before, and the block size falls in the same bin |
| `SizeBins.BinMonotone` | src/mimalloc/src/page-queue.c:56-94 | A larger request never goes to an earlier bin |
| `SizeBins.SizesRise` | src/mimalloc/src/init.c:53-67 | The table of block sizes is sorted |
| `SizeBins.BinRange` | src/mimalloc/src/page-queue.c:184-190 | Comparing bins of block sizes backwards finds exactly the range of sizes of a bin, over the unused bins |
| `SizeBins.WasteEighth` | src/mimalloc/src/page-queue.c:82-92 | Exactly which sizes above 8 words waste at most the eighth of the block that the comment gives: with P the step of the class, w - 1 = q * P + r, those with (7 - q) * P <= 8 * (r + 1), so all with q = 7 |
| `SizeBins.WasteFifth` | src/mimalloc/src/page-queue.c:82-92 | Every size above 8 words wastes less than a fifth of the block, and the first size of every class with q = 4 wastes a fifth of it less one word |
| `SizeBins.WasteSmall` | src/mimalloc/src/page-queue.c:59-75 | Up to 8 words: all sizes but 3 and 5 words keep to the eighth, all but 3 words to the fifth, and 3 words waste a quarter |
| `SizeBins.SeventeenWords` | src/mimalloc/src/page-queue.c:82-92 | 17 words get 20, which wastes more than an eighth |
| `PageQueues.StartSlot` | src/mimalloc/src/page-queue.c:180-191 | Exactly the sizes of the bin |
| `PageQueues.Heap.constructor` | src/mimalloc/src/init.c:40-50 | All small sizes lead to the empty page |
| `PageQueues.Heap.FreeSmallPage` | src/mimalloc/include/mimalloc/internal.h:399-404 | The direct entry is the first page of the queue for the size, or the empty page |
| `PageQueues.Heap.FirstUpdate` | src/mimalloc/src/page-queue.c:163-198 | After it the whole index is right, also when the early return is taken |
| `PageQueues.Heap.Push` | src/mimalloc/src/page-queue.c:229-255 | The page is first on its queue, the index right, the count one higher |
| `PageQueues.Heap.Remove` | src/mimalloc/src/page-queue.c:206-226 | The page is on no queue, the index right, the count one lower |
| `PageQueues.Heap.EnqueueFrom` | src/mimalloc/src/page-queue.c:258-294 | The page is last on the other queue, the index right, the count the same |
| `PageQueues.Heap.Unfull` | src/mimalloc/src/page.c:349-361 | A page that is marked full goes to the end of the queue for its size |
| `PageQueues.Heap.ToFull` | src/mimalloc/src/page.c:363-371 | A page goes to the queue of full pages |
| `PageQueues.Heap.QueueAppend` | src/mimalloc/src/page-queue.c:297-332 | The pages get the new heap and go behind its queue; returns how many |
| `PageQueues.Heap.Absorb` | src/mimalloc/src/heap.c:386-417 | All queues are taken over in order, the counts add up, and the old heap is left without pages and without direct entries |
| `PageQueues.OtherHeapsKeep` | src/mimalloc/src/page-queue.c:206-332 | Heaps not involved keep their queues, their index and their count |
| `FreeListBuilder.Page.constructor` | src/mimalloc/src/page.c:656-700 | A fresh page has no blocks yet |
| `FreeListBuilder.Page.SliceCount` | src/mimalloc/src/page.c:523-527 | The largest power of two up to 64 that is not more than the blocks |
| `FreeListBuilder.Page.CutSlices` | src/mimalloc/src/page.c:527-536 | The slices cut the new blocks without gap or overlap |
| `FreeListBuilder.Page.Pick` | src/mimalloc/src/page.c:550-555 | The search ends at the first slice with blocks at or after the drawn one, wrapping |
| `FreeListBuilder.Page.ExtendShuffled` | src/mimalloc/src/page.c:511-566 | For all random draws: ends, and the list is a permutation of exactly the new blocks followed by the old list |
| `FreeListBuilder.Page.ExtendInOrder` | src/mimalloc/src/page.c:568-592 | The new blocks in order, then the old list |
| `FreeListBuilder.Page.ExtendFree` | src/mimalloc/src/page.c:610-653 | Adds the computed number of blocks unless free ones are left or none remain, never beyond the reserve |
| `FreeListBuilder.TakeNext` | src/mimalloc/src/page.c:556-561 | The next block of a slice is new to the list |
| `ProbedTable.ProbeStops` | src/Runtime/Profiler/GrowOnlyLockFreeHash.h:114 | With a free slot a probe stops within the number of entries |
| `ProbedTable.NotThere` | src/Runtime/Profiler/GrowOnlyLockFreeHash.h:114-129 | A probe that meets a free slot proves the key absent |
| `ProbedTable.InsertHolds` | src/Runtime/Profiler/GrowOnlyLockFreeHash.h:239-244 | Writing where the probe ended adds exactly the key |
| `LockFreeHash.Hash.Reserve` | src/Runtime/Profiler/GrowOnlyLockFreeHash.h:80-98 | The first table has room for the count, less than twice of it, and holds nothing |
| `LockFreeHash.Hash.Find` | src/Runtime/Profiler/GrowOnlyLockFreeHash.h:106-138 | Find is the map |
| `LockFreeHash.Hash.Emplace` | src/Runtime/Profiler/GrowOnlyLockFreeHash.h:143-198 | Inserts the key unless it is there; at most half full afterwards; what is shown to readers changes by one written entry, in the table or in one grown from it |
| `LockFreeHash.Hash.Grow` | src/Runtime/Profiler/GrowOnlyLockFreeHash.h:164-189 | Twice the size, the same map |
| `LockFreeHash.HashInsert` | src/Runtime/Profiler/GrowOnlyLockFreeHash.h:232-247 | Writes the new key where its probe ends and changes no other slot |
| `LockFreeHash.CopyInto` | src/Runtime/Profiler/GrowOnlyLockFreeHash.h:174-185 | Rehashing keeps the map |
| `LockFreeReads.RunKeepsInv` | src/Runtime/Profiler/GrowOnlyLockFreeHash.h:106-198 | Holds in every interleaving of readers and a writer, through growth |
| `LockFreeReads.InsertOnly` | src/Runtime/Profiler/GrowOnlyLockFreeHash.h:148-159 | A key keeps its first value |
| `LockFreeReads.FindIsRight` | src/Runtime/Profiler/GrowOnlyLockFreeHash.h:106-138 | A find returns every key published before it loaded the table, and only first-inserted values |
| `LockFreeReads.FindStops` | src/Runtime/Profiler/GrowOnlyLockFreeHash.h:114 | A find makes at most one probe more than the table has entries |
| `LockFreeReads.HalfFull` | src/Runtime/Profiler/GrowOnlyLockFreeHash.h:164 | Every published table is at most half full; the current one holds exactly the map |
| `LockFreeReads.EmplaceIsARun` | src/Runtime/Profiler/GrowOnlyLockFreeHash.h:143-198 | What the writer code does to the table when it inserts a key is a run of the steps publish and insert, from any reachable state that shows the map as it was to one that shows it as it is then |
| `TraceBufferSafety.RunKeepsInv` | src/Runtime/TraceLog/Private/Trace/TlsBuffer.cpp:132-226 | The invariant holds in every interleaving of writers and the drainer |
| `TraceBuffers.LoadEtxKeepsInv` | src/Runtime/TraceLog/Private/Trace/TlsBuffer.cpp:147-149 | Also when the buffer is retired between the two loads |
| `TraceBuffers.AttachKeepsInv` | src/Runtime/TraceLog/Private/Trace/TlsBuffer.cpp:92-119 | Publishing a first buffer and linking a next one |
| `TraceBuffers.PoolKeepsInv` | src/Runtime/TraceLog/Private/Trace/BlockPool.cpp:87-160 | Mapping a page of blocks and taking one |
| `TraceBufferSafety.SentIsPrefix` | src/Runtime/TraceLog/Private/Trace/TlsBuffer.cpp:132-150 | The bytes sent for a thread are a prefix of what it has committed, up to the first byte that is not, which is a prefix of what it wrote, in order, each once; the rest is in its chain |
| `TraceBufferSafety.RunKeepsUnread` | src/Runtime/TraceLog/Private/Trace/TlsBuffer.cpp:132-226 | In every run the drainer has taken nothing from the buffers of a chain but the oldest |
| `TraceBufferSafety.SentIsCommitted` | src/Runtime/TraceLog/Private/Trace/TlsBuffer.cpp:134-145 | Nothing is sent before it is committed |
| `TraceBufferSafety.ReturnedWhenDrained` | src/Runtime/TraceLog/Private/Trace/TlsBuffer.cpp:208-225 | A buffer returns to the pool only when fully sent |
| `TraceBufferSafety.OneHome` | src/Runtime/TraceLog/Private/Trace/BlockPool.cpp:87-160 | Every buffer is in exactly one list or chain |
| `TraceBufferSafety.EndedIsComplete` | src/Runtime/TraceLog/Private/Trace/TlsBuffer.cpp:298-307 | A thread without a chain has had everything sent |
| `TraceBufferSafety.NoThreadLost` | src/Runtime/TraceLog/Private/Trace/TlsBuffer.cpp:168-218 | A thread with a chain is on exactly one list, once |
| `PacketRing.SizeFits` | src/Runtime/TraceLog/Private/Trace/Tail.cpp:189-190 | The 16-bit size field holds the size exactly when it is below 64 KiB |
| `PacketRing.Ring.WrapAround` | src/Runtime/TraceLog/Private/Trace/Tail.cpp:158-168 | The front range becomes the back range, packet by packet, and the old back range is dropped |
| `PacketRing.Ring.Evict` | src/Runtime/TraceLog/Private/Trace/Tail.cpp:183-186 | Dropping by the size field removes exactly the oldest packet, and moves the start by its length |
| `PacketRing.SurvivorsLeast` | src/Runtime/TraceLog/Private/Trace/Tail.cpp:170-187 | Packets are dropped only as far as the room demands: the last one dropped began below the bound, the first one kept begins at it or later |
| `PacketRing.Ring.MakeRoom` | src/Runtime/TraceLog/Private/Trace/Tail.cpp:170-187 | The loop ends with the bytes free and exactly those packets left |
| `PacketRing.Ring.FindRoom` | src/Runtime/TraceLog/Private/Trace/Tail.cpp:158-187 | Room behind the front range, or from the start of the ring with the front range as the back range; exactly which packets are kept |
| `PacketRing.Ring.AppendImpl` | src/Runtime/TraceLog/Private/Trace/Tail.cpp:145-194 | Room for the packet with exactly the packets kept that the room leaves, for any size: the size field gets the low 16 bits; too big a packet forgets everything |
| `PacketRing.Ring.BackUp` | src/Runtime/TraceLog/Private/Trace/Tail.cpp:139-142 | Giving back the end of the packet and subtracting in the 16-bit field leaves a packet with its own size written, also when the size before did not fit the field |
| `PacketRing.Ring.TailAppend` | src/Runtime/TraceLog/Private/Trace/Tail.cpp:202-244 | Data that fits: the packet, plain or encoded, is the last one kept, before it exactly the packets that the room made for it leaves, and the packet is what is sent. Data too big for the ring: the tail is forgotten and the data is sent directly, not kept |
| `PacketRing.Ring.OnConnect` | src/Runtime/TraceLog/Private/Trace/Tail.cpp:247-259 | A client gets a whole-packet suffix of all packets appended since the last reset |
| `EventBatches.ReadWritten` | src/Runtime/Profiler/TraceAuxiliary.h:18-26 | Reading back a number written in 7-bit groups |
| `EventBatches.EncodedLength` | src/Runtime/Profiler/TraceAuxiliary.cpp:578-583 | An event takes at most 15 bytes |
| `EventBatches.DecodedIs` | src/Runtime/Profiler/TraceAuxiliary.cpp:678-689 | What a reader makes of any batch: the differences lose their highest bit |
| `EventBatches.RoundTrip` | src/Runtime/Profiler/TraceAuxiliary.cpp:678-689 | A batch is read back exactly iff each event is less than 2^63 cycles after the one before, in 64-bit arithmetic |
| `EventBatches.CounterGoesBack` | src/Runtime/Profiler/TraceAuxiliary.cpp:678-689 | An event before the one in front of it, both below 2^63, is read 2^63 cycles too late |
| `EventBatches.ExactlyHalf` | src/Runtime/Profiler/TraceAuxiliary.cpp:678-689 | A difference of exactly 2^63 is read as none |
| `EventBatches.RisingIsClose` | src/Runtime/Profiler/TraceAuxiliary.cpp:678-689 | Non-decreasing cycles below 2^63 satisfy that |
| `EventBatches.ThreadBuffer.Encode7bit` | src/Runtime/Profiler/TraceAuxiliary.h:18-26 | Appends the groups of the number, lowest first, and nothing else |
| `EventBatches.ThreadBuffer.Flush` | src/Runtime/Profiler/TraceAuxiliary.cpp:654-660 | The batch is sent, nothing is forgotten |
| `EventBatches.ThreadBuffer.BeginEvent` | src/Runtime/Profiler/TraceAuxiliary.cpp:670-689 | One more event recorded; the 256-byte buffer never overflows |
| `EventBatches.ThreadBuffer.EndEvent` | src/Runtime/Profiler/TraceAuxiliary.cpp:783-801 | One more event recorded; at depth 0 nothing stays buffered |
| `EventBatches.EverythingRecovered` | src/Runtime/Profiler/TraceAuxiliary.cpp:654-689 | For rising cycles the batches and the buffer give back exactly the events |

## Left out

- Weak memory: every atomic operation is sequentially consistent; the C11 orders of the source are not modelled.
- Spin loops: waiting is a step that is not enabled; that the wait ends needs fair scheduling and is not stated.
- A failed compare-and-swap changes nothing and is not a step; the bounded retries of `_mi_page_try_use_delayed_free` become a free choice to give up whenever the page is FREEING, and a claim that lost its field may be begun again.
- Tags of the abandoned stack are unbounded; the source has 25 bits, so more than 2^25 updates between a load and its swap are not covered.
- The operating system is a parameter: whether a commit succeeds and whether a purge takes memory away is arbitrary; clocks and random draws are arbitrary values.
- Clients free only blocks they hold, once; the double-free checks, padding and canaries, debug fills and statistics are not modelled.
- Huge pages and huge segments, save for aligned allocation in them and the way back from its addresses; how their segments are made and freed, alignments above the maximum, guard pages of the secure mode and object sizes that are no multiple of a word.
- `mi_heap_destroy`: freeing a heap with live blocks.
- The downward search of `_mi_segment_of`: its loop condition does not match its evident intent.
- 32-bit builds, alignments other than two words, and padding: the constants are those of a 64-bit build without padding.
- CommitMasks.CommitState.EnsureCommitted: requests are whole slices, as all requests of normal segments are; the rounding of addresses to slices is not modelled.
- SpanSearch.FindAndAllocate: `m` names how the segments are laid out before the call; which segments suit a request is a parameter, and whether the commit succeeds is arbitrary.
- Segments.Segment.CheckFree: which pages are free by now and which have room are parameters, since other threads decide them.
- PageQueues.Heap.QueueAppend: the ends of the emptied queue are cleared at once; the source clears them when the old heap is reset, before anything reads them. The wait for a FREEING page in that loop is `CrossThreadFree.KeepUseMoved`.
- AlignedBlocks.MallocAlignedAt: the two pages it may allocate from are given and a request finds nothing when they are exhausted; which page serves a size is `PageQueues`, and fetching a fresh page is `FreeListBuilder` and `SpanSearch`.
- AlignedBlocks.MallocAlignedFallback: the same two pages are given.
- BitmapSearch.PurgeField: one thread, as in `BitmapSearch.PurgeArena`.
- BitmapSearch.PurgeArena: one thread; that a purge beside other threads touches only its own blocks is `BitmapClaims.NeverFaults`.
- TraceBuffers.PoolKeepsInv: taking a block from the pool is one step; the source loads and swaps without a tag, and exclusivity is not provable at that grain.
- TraceBuffers.AttachKeepsInv: what was traced while a buffer was allocated is an arbitrary byte string; redirection of one thread's events into another buffer is not modelled.
- `Writer_ShutdownPool` and the layout of pool pages; releasing all memory at exit.
- PacketRing.Ring.TailAppend: the ring is active; the encoder returns any bytes within its bound that make a packet below 64 KiB, and the bound fits in the ring, as the initialisation of the ring ensures. Sending is the returned value: the bytes of the packet kept, or the data for `Writer_SendData`, which is not part of this model.
- LockFreeHash.Hash.Emplace: entries that count as empty (a zero key, usually) are never inserted, as the header demands; allocation failure and integer overflow of the table size are not modelled.
- The uniqueness of call-stack identifiers when two threads race in `Backtracer.cpp`.
- EventBatches: dynamic event names, their registration and the final `EndCapture` batch; the trace channel is on.
- I/O, sockets, the control port, JNI and libc hooks, event descriptors and channels.
