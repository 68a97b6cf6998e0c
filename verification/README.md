# A model of the RT-Thread kernel's heaps, timers, scheduler and IPC, and of cJSON

This project models the parts of an RT-Thread 4.0.2 firmware whose correctness rests on invariants over linked
structures and over whole runs, and proves those invariants. `dafny verify dfyconfig.toml` checks all of it.

**Memory heap** (`memheap.c`). `Store` is a memory of words; `HeapLayout` says what a sequence of blocks must satisfy;
`HeapRep` and `HeapWrites` say how headers, block list and free list represent it in memory and what each group of
writes does to both; `HeapOps` computes the layouts after allocation, release and resize; `MemHeap` holds the
operations as methods of a class, and `MultiHeap` the fallback over several heaps. `Kservice` is the copying loop and
`RtService` the circular list.

**Slab allocator** (`slab.c`). `Pages` is the page allocator, `SizeClasses` the 72 chunk sizes, `Zones` the chunks of one
zone, `Slabs` the invariant over zones, tables, page types and live blocks, and `SlabHeaps` the allocator in place.

**Timers** (`timer.c`). `TimerOrder` is the wraparound order, `TimerRows` the skip list as a sequence of rows for any
number of levels, `TimerDue` what an expiry loop fires, `TimerOne` what it does to each single timer and what that
comes to over runs of ticks, `TimerRep` the rows in memory, `Timers` the operations.

**Kernel** (`scheduler.c`, `thread.c`, `ipc.c`, `clock.c`). Each region with interrupts disabled is one step. `Threads`
gives the steps of the scheduler as functions on a state, for any number of priorities up to 256; `Scheduler` runs the
same steps on fields with the ready words, the flat bitmap or the two-level one, and refines those functions; `TwoLevel`
has the facts about the two-level table, `Words` the bit operations and the find-first-set table. `Ipc` says what a
waiting thread and its object may rely on while others run. `Semaphores`, `Mutexes`, `MutexPriority`, `Events`,
`Mailboxes` and `MessageQueues` each hold an object's class, its invariant and its statement over all runs. What the calls
of an object return over a run is held against references of its own: `MutexHold` a ledger of takes and releases,
`MailboxRuns` the values sent and received, `EventLaws` single event bits, `IpcWaits` when and how a call waits. `Kernel`
puts all objects and the scheduler into one system, `KernelPriority` proves priority inheritance in it, `KernelLock` that
a locked scheduler never switches, and `ThreadTimers` joins the scheduler and the timer list: who waits n ticks wakes
after n ticks. `Queues` is shared.

**cJSON**. `Json` is the tree and its text, `JsonParse` the parser as recursive functions, `JsonRoundTrip` the round trip,
`JsonGrammar` exactly which texts are accepted, `JsonDecimal` which number a numeral gives, `JsonUnicode` which code
points an escape gives, `JsonSafe` which texts keep the string decoder within its buffer, `JsonParser` the parser's loops,
`JsonPrint` and `JsonBuffer` the printers with precomputed sizes and with a growing buffer, `PowerOfTwo` its growth,
`JsonLayout` the white space of formatted texts, `JsonMinify` the in-place minifier and `JsonComments` what it takes out.
The text format is that of RFC 8259, sections 2 to 7, the encoding of code points that of RFC 3629, section 3.

Conventions. A header word is a cell of memory at its address and a payload byte is a cell at its own; sizes and
addresses are 32-bit in the source and do not overflow here by precondition, except for the tick, whose wraparound is
modelled. In the kernel classes a list that the source threads through its nodes is a field of type `seq`; `RtService`,
`Timers`, `MemHeap` and `MessageQueues` prove the pointer operations. Larger priority numbers are less urgent.

Where comments and code of the repository differ, the model follows the code:

- `slab.c:108-115` promises that every power-of-two allocation is aligned to its size. The code aligns chunks within
  their zone, and zones and large blocks start at any page. `SlabHeaps.SlabHeap.Malloc` states when the promise is kept,
  for all calls: if and only if the size is at most a page, or divides the address of the first page of the zone or of the
  run of pages that serves the call, which is known before it (`FirstPage`). `SlabHeaps.MisalignedPages` and
  `SlabHeaps.MisalignedChunk` are runs from `rt_system_heap_init` in which it fails, for pages and for a zone.
- `cJSON.c:751` takes `/*/` for a whole comment, because the star of the opening mark may serve for the closing one;
  `JsonComments.SharedStar` states it, and `JsonComments.PiecesMinified` holds for all other comments.
- `memheap.c:155` refuses a request that equals the available bytes even when one free block has them all;
  `MemHeap.Heap.Alloc` states exactly when a request fails.

## Model

| member | source | states |
|---|---|---|
| RtService.ListInit | rt-thread/include/rtservice.h:47-50 | the node is linked to itself, and no other word changes |
| RtService.InsertAfter | rt-thread/include/rtservice.h:58-65 | in a well-formed circular list, n becomes the element behind l; no link word outside the list and n changes |
| RtService.InsertBefore | rt-thread/include/rtservice.h:73-80 | n becomes the element in front of l, the last one when l is the head; no link word outside the list and n changes |
| RtService.Remove | rt-thread/include/rtservice.h:86-92 | the list without n, n linked to itself; removing a node that is in no list changes nothing |
| RtService.IsEmpty | rt-thread/include/rtservice.h:98-101 | true exactly for a list with no element but its head |
| RtService.Len | rt-thread/include/rtservice.h:107-119 | the number of elements, counted along the next links |
| Kservice.Memcpy | rt-thread/src/kservice.c:210-278 | the byte loop and the word loops alike leave the source's bytes at the destination and change nothing else, for regions that do not overlap |
| Words.Ffs | rt-thread/src/kservice.c:1316-1330 | one more than the position of the lowest set bit of a 32-bit word, 0 for the zero word |
| Words.TableRight | rt-thread/src/kservice.c:1286-1304 | every entry of the 256-entry table, row by row, is the lowest bit of its index |
| MemHeap.Heap.constructor | rt-thread/src/memheap.c:50-117 | a well-formed heap: one free block and the used tail, the free list holding that block |
| MemHeap.Heap.FirstFit | rt-thread/src/memheap.c:168-182 | the search stops at the first free-list block that is large enough; if it stops at the list head, no free block is |
| MemHeap.Heap.Alloc | rt-thread/src/memheap.c:138-282 | null exactly when the rounded size is not below the available bytes or no free block is large enough, and then nothing changes; otherwise the first fitting block is used, with the rounded size if the rest can be a block and whole if not, and the available bytes fall by that; other live blocks keep address, size and bytes, and the heap stays well formed (tiling, prev/next, free list, no free neighbours, sizes, byte count, high-water mark) |
| MemHeap.Heap.Take | rt-thread/src/memheap.c:184-262 | the layout after an allocation from the found block: a block of the size asked for and a free rest, or the whole block when the rest could not be one |
| MemHeap.Heap.SplitFree | rt-thread/src/memheap.c:190-236 | splitting leaves the pool tiled and the free list with the rest instead of the block |
| MemHeap.Heap.Release | rt-thread/src/memheap.c:535-591 | both merges: the block list is the old one with the block and its free neighbours made one, the free list holds the result once, and the byte count gains the payload and every reclaimed header |
| MemHeap.Heap.Free | rt-thread/src/memheap.c:495-595 | the live blocks are the old ones without the freed one, all others keep their bytes, and the heap stays well formed; null does nothing |
| MemHeap.Heap.Grow | rt-thread/src/memheap.c:333-402 | growing in place takes the bytes from the free right neighbour, whose rest stays free and listed; no live byte moves |
| MemHeap.Heap.Shrink | rt-thread/src/memheap.c:419-491 | shrinking splits the block; the rest joins a free right neighbour and is listed once |
| MemHeap.Heap.RoomBehind | rt-thread/src/memheap.c:333-350 | the in-place test of rt_memheap_realloc holds exactly when the next block is free and large enough |
| MemHeap.Heap.Move | rt-thread/src/memheap.c:405-416 | allocate, copy, free: the old bytes are at the new place, other live blocks are untouched, and failure changes nothing |
| MemHeap.Heap.Realloc | rt-thread/src/memheap.c:284-493 | one specification for all branches: on success one block replaces the old one, with room for the aligned size and at most a header and a smallest block more, and holds its first min(old, new) bytes; shrinking by more than that gives exactly the aligned size and the available bytes gain what is cut off, growing in place takes exactly what is missing; all other live blocks keep address, size and bytes; on failure nothing changes; when it stays in place and when it fails |
| MemHeap.Heap.Resize | rt-thread/src/memheap.c:324-493 | the same of a block, behind the tests for size 0 and null |
| MemHeap.Heap.ResizeDown | rt-thread/src/memheap.c:419-491 | the block has exactly the size asked for; the bytes cut off become available, less a header if no free block follows |
| MemHeap.Heap.ResizeUp | rt-thread/src/memheap.c:333-402 | the block has exactly the size asked for, and the available bytes fall by what it gained |
| MemHeap.Heap.UserWrite | rt-thread/src/memheap.c:138-282 | a write of a live block's owner to its payload keeps the heap valid and every other block's bytes |
| MemHeap.Heap.AllocThenFree | rt-thread/src/memheap.c:138-282 | allocation and release of the result restore the block layout and the available bytes |
| HeapLayout.LayoutDetermined | rt-thread/src/memheap.c:50-596 | a well-formed layout is determined by its live blocks: there is only one way to merge the rest |
| HeapLayout.AllFreeIsOneBlock | rt-thread/src/memheap.c:495-595 | when no block is live the heap is one free block that has all the bytes |
| HeapOps.AllocOutcome | rt-thread/src/memheap.c:184-262 | the layout after an allocation is well formed and its free blocks, live blocks and byte sum are the old ones adjusted |
| HeapOps.FreeOutcome | rt-thread/src/memheap.c:535-591 | the layout after a release is well formed, has no two free neighbours, and loses exactly the freed block from its live ones |
| HeapOps.ResizeOutcome | rt-thread/src/memheap.c:333-491 | the layout after a resize in place is well formed and the block keeps its address |
| HeapRep.CutRep | rt-thread/src/memheap.c:190-225 | the overlapping header writes of a split represent the split layout in both lists |
| HeapRep.JoinRep | rt-thread/src/memheap.c:540-573 | the writes of a merge represent the merged layout in both lists |
| HeapRep.UnlinkRep | rt-thread/src/memheap.c:575-577 | unlinking from the free list leaves the block list and every other free node in place |
| HeapRep.PushRep | rt-thread/src/memheap.c:580-586 | inserting at the front of the free list leaves the block list in place |
| HeapRep.PayloadRep | rt-thread/src/memheap.c:138-282 | writes to a payload keep both lists |
| HeapWrites.Format | rt-thread/src/memheap.c:69-110 | the writes of rt_memheap_init: two headers and the free-list head, nothing else |
| HeapWrites.AbsorbNext | rt-thread/src/memheap.c:364-387 | the four unlinking writes around an absorbed free neighbour, whatever they overlap |
| MultiHeap.System.Malloc | rt-thread/src/memheap.c:610-648 | null exactly when every heap fails; otherwise the block is from the default heap if that has room, else from the first heap in order that has, not larger than the size needs, and the other heaps are unchanged |
| MultiHeap.System.Free | rt-thread/src/memheap.c:650-654 | the block leaves the heap that its header names; the other heaps and live blocks are unchanged |
| MultiHeap.System.OwnerOf | rt-thread/src/memheap.c:520-521 | the header in front of a live block names the heap it belongs to |
| MultiHeap.System.Realloc | rt-thread/src/memheap.c:656-696 | resized within the owner if and only if it fits, can grow, or the owner has room, and then in place in the first two cases, with exactly the size asked for unless the rest is too small to be a block, the owner's available bytes following; else moved with its bytes to the heap that rt_malloc picks; never larger than the size needs by more than such a rest; all other live blocks of all heaps keep their bytes and nothing outside the two heaps' regions changes; null exactly for size 0 or when nothing has room, and then nothing changes |
| MultiHeap.System.ReallocOwner | rt-thread/src/memheap.c:669-670 | the attempt within the owner: when it succeeds, how large the block is then, and what it leaves alone |
| MultiHeap.System.MoveElsewhere | rt-thread/src/memheap.c:671-690 | the fallback: rt_malloc, the old bytes copied, the old block freed; every other live block of both heaps keeps its bytes |
| Pages.PageAllocator.constructor | rt-thread/src/slab.c:327-334 | one run, all pages free |
| Pages.PageAllocator.Alloc | rt-thread/src/slab.c:236-270 | the first long enough run gives its first pages, which were not handed out; free and handed-out pages still partition the region and the run list stays sorted |
| Pages.PageAllocator.Take | rt-thread/src/slab.c:245-263 | the search and the splitting or unlinking of the run found, as list writes |
| Pages.PageAllocator.Free | rt-thread/src/slab.c:272-322 | the pages are merged with the runs they touch; the list stays sorted, its runs never adjacent, and the partition holds |
| Pages.PageAllocator.Give | rt-thread/src/slab.c:285-318 | the search and the four ways to link the pages in: extend, bridge, precede, insert |
| Pages.AllocKeeps | rt-thread/src/slab.c:236-270 | an allocation keeps the list strictly sorted without touching runs and removes exactly the pages it returns |
| Pages.AllocFails | rt-thread/src/slab.c:236-270 | it fails exactly when no run is long enough |
| Pages.AllocFirst | rt-thread/src/slab.c:236-270 | otherwise the pages are the first ones of the first run that is long enough |
| Pages.FreedKeeps | rt-thread/src/slab.c:272-322 | freeing pages that are not free keeps the list strictly sorted without touching runs and adds exactly those pages |
| SizeClasses.BestFit | rt-thread/src/slab.c:401-459 | zoneindex is below 72 and picks the least chunk size that is not below the request |
| SizeClasses.IndexIffChunk | rt-thread/src/slab.c:401-459 | two requests get the same index exactly when they get the same chunk size |
| SizeClasses.PowerTestExact | rt-thread/src/slab.c:635-638 | the bit test of rt_malloc holds exactly for the powers of two |
| SizeClasses.PowerIsChunk | rt-thread/src/slab.c:401-459 | a power of two from 8 on is its own chunk size |
| Zones.TakeOk | rt-thread/src/slab.c:539-568 | a zone that counts free chunks has one; the chunk handed out was not live; nfree stays the number of never-used and freed chunks |
| Zones.PutOk | rt-thread/src/slab.c:830-842 | a freed chunk joins the free list; nfree stays the number of never-used and freed chunks |
| Zones.AllFree | rt-thread/src/slab.c:854-855 | nfree equals nmax exactly when no chunk of the zone is live |
| Zones.FreshOk | rt-thread/src/slab.c:628-648 | a new zone's chunks lie behind the header and inside the zone, at least two of them, aligned within it |
| Zones.SlotsApart | rt-thread/src/slab.c:556-560 | two chunks of a zone never overlap |
| Slabs.TakeKeeps | rt-thread/src/slab.c:539-576 | taking a chunk keeps the allocator's invariant: zones listed in the table iff they have free chunks, page types, page ownership, live blocks |
| Slabs.OpenKeeps | rt-thread/src/slab.c:625-652 | opening a new or reused zone keeps the invariant, and its first chunk was not live |
| Slabs.PutKeeps | rt-thread/src/slab.c:825-846 | freeing a chunk keeps the invariant |
| Slabs.RetireKeeps | rt-thread/src/slab.c:854-874 | moving a wholly free zone to the idle list keeps the invariant |
| Slabs.AcquireKeeps | rt-thread/src/slab.c:601-622 | marking the pages of a zone taken from the page allocator keeps the invariant |
| Slabs.ReleaseKeeps | rt-thread/src/slab.c:877-897 | giving an idle zone's pages back keeps the invariant |
| Slabs.LargeTakeKeeps | rt-thread/src/slab.c:493-504 | a large block on pages that nobody holds keeps the invariant |
| Slabs.LargeFreeKeeps | rt-thread/src/slab.c:797-819 | releasing a large block keeps the invariant |
| Slabs.HomeZone | rt-thread/src/slab.c:825-828 | the page type of a chunk's page leads to the zone that the chunk belongs to |
| Slabs.HomeLarge | rt-thread/src/slab.c:796-805 | the page type of a large block holds its page count |
| Slabs.LiveApart | rt-thread/src/slab.c:478-660 | no two live blocks overlap, whatever zones or page runs they come from |
| Slabs.Aligned | rt-thread/src/slab.c:631-646 | a power-of-two request up to the page size gets a block aligned to its size |
| Slabs.ChunkAligned | rt-thread/src/slab.c:631-646 | a power-of-two chunk lies at the same distance from a multiple of its size as the first page of its zone |
| Slabs.ChunkAlignedIff | rt-thread/src/slab.c:631-646 | a chunk handed out for a power of two is aligned to it if and only if that is not more than a page or divides the zone's first address |
| SlabHeaps.MisalignedPages | rt-thread/src/slab.c:108-115 | the comment promises that every power-of-two allocation is aligned to its size; here a heap from rt_system_heap_init answers a request for 8 KB, served from whole pages, with an address that is not a multiple of 8 KB |
| SlabHeaps.MisalignedChunk | rt-thread/src/slab.c:108-115 | the same for a request served from a zone, in a pool large enough for 64 KB zones |
| SlabHeaps.ZoneSize | rt-thread/src/slab.c:374-377 | 32, 64 or 128 KB: the least that is not below half the pool size divided by 1024, within these bounds |
| SlabHeaps.SlabHeap.constructor | rt-thread/src/slab.c:344-394 | a valid allocator with nothing live: zone size by pool size, memusage on the first pages, one run of free pages behind it |
| SlabHeaps.SlabHeap.Malloc | rt-thread/src/slab.c:478-668 | null exactly for size 0 or when neither a zone of the class, an idle zone nor a run of pages is there; otherwise a block that was not live and is large enough, every other live block staying; a power-of-two request is aligned to its size if and only if that is not more than a page or divides the address of the first page of the zone or run that serves it |
| SlabHeaps.SlabHeap.MallocPages | rt-thread/src/slab.c:493-520 | large requests: the first pages of the first long enough run, null exactly when there is none |
| SlabHeaps.SlabHeap.TakeFrom | rt-thread/src/slab.c:539-576 | a chunk of the class that was not live |
| SlabHeaps.SlabHeap.MallocZone | rt-thread/src/slab.c:590-652 | an idle zone is reused before pages are taken; null exactly without either |
| SlabHeaps.SlabHeap.NewZone | rt-thread/src/slab.c:601-622 | pages of a zone, each marked with its distance from the first; none exactly when no run is long enough |
| SlabHeaps.SlabHeap.Free | rt-thread/src/slab.c:771-905 | exactly the block leaves the live ones; a large block's pages join the free runs; a zone that loses its last live chunk becomes idle if its class has another zone with free chunks, or its pages join the free runs when two zones are idle already; otherwise idle zones and free runs stay as they are |
| SlabHeaps.SlabHeap.FreeChunk | rt-thread/src/slab.c:825-905 | the same for a chunk |
| SlabHeaps.SlabHeap.FreePages | rt-thread/src/slab.c:797-819 | a large block leaves the live ones and exactly its pages join the free runs |
| SlabHeaps.SlabHeap.PutBack | rt-thread/src/slab.c:825-846 | a chunk leaves the live ones; its zone is found through the page type, and is then wholly free with another zone in its row exactly if the chunk was its last live one and there is one |
| SlabHeaps.SlabHeap.Retire | rt-thread/src/slab.c:854-874 | the zone is unlinked from its row, wherever it is, and becomes the first idle one |
| SlabHeaps.SlabHeap.ReleaseIdle | rt-thread/src/slab.c:877-897 | exactly the first idle zone's pages join the free runs |
| SlabHeaps.SlabHeap.Realloc | rt-thread/src/slab.c:678-733 | a chunk stays where it is exactly if the new size has its class; otherwise the block is replaced by one of the size that rt_malloc gives for the request, or the call fails exactly when rt_malloc would; its bytes up to the new size and the bytes of all other live blocks are preserved; failure leaves everything as it was |
| TimerOrder.KeyOrder | rt-thread/src/timer.c:359-366 | within a window of RT_TICK_MAX/2 the wraparound comparison is the order of the distances from the window's base |
| TimerOrder.InsertedOrdered | rt-thread/src/timer.c:343-391 | insertion keeps a row sorted by wraparound deadline with ties in start order |
| TimerOrder.OrderedSubsequence | rt-thread/src/timer.c:343-391 | of two sorted rows, one that lists only timers of the other is a subsequence of it |
| TimerRows.SkipList | rt-thread/src/timer.c:296-412 | in a valid skip list every row is a subsequence of the row below |
| TimerRows.StartedSorted | rt-thread/src/timer.c:296-412 | a start keeps every row sorted and every row within the one below, for any number of levels |
| TimerRows.RemovedSorted | rt-thread/src/timer.c:121-129 | a removal from all rows keeps them sorted and nested |
| TimerRows.StartedMembers | rt-thread/src/timer.c:296-412 | a start lists the timer and no other that was not listed |
| TimerRows.HeightExact | rt-thread/src/timer.c:376-391 | a start enters one row above the bottom for each pair of zero bits at the end of the start counter, up to the number of rows |
| TimerRows.Descend | rt-thread/src/timer.c:343-370 | entering the row below where the search stopped skips no timer that is due later |
| TimerRep.RemoveNode | rt-thread/src/timer.c:121-129 | one row's node unlinked in memory, the other rows untouched |
| TimerRep.InsertNode | rt-thread/src/timer.c:379-385 | one row's node linked behind its place in memory, the other rows untouched |
| Timers.TimerList.constructor | rt-thread/src/timer.c:679-687 | empty rows |
| Timers.TimerList.Init | rt-thread/src/timer.c:178-198 | a timer that is not running, in no row |
| Timers.TimerList.RemoveAll | rt-thread/src/timer.c:121-129 | the timer leaves every row |
| Timers.TimerList.SearchRow | rt-thread/src/timer.c:345-367 | the search stops in front of the first timer that is due later |
| Timers.TimerList.Search | rt-thread/src/timer.c:342-370 | the search through all rows finds the place in each row |
| Timers.TimerList.InsertAll | rt-thread/src/timer.c:376-391 | the bottom row and, for each pair of zero bits of the start counter, one more row get the timer |
| Timers.TimerList.Start | rt-thread/src/timer.c:296-412 | the timer, removed if it was running, is in the lowest rows at its new deadline, behind timers of the same deadline, and the skip list stays valid |
| Timers.TimerList.Stop | rt-thread/src/timer.c:422-448 | -RT_ERROR exactly for a timer that is not active; otherwise it is in no row and not active |
| TimerDue.DueExactly | rt-thread/src/timer.c:507-516 | the timers at the front whose test succeeds are exactly the running timers whose deadline has been reached |
| TimerDue.FiresInOrder | rt-thread/src/timer.c:494-553 | timers fire in deadline order, each at most once, only due ones |
| TimerDue.FiresAll | rt-thread/src/timer.c:494-553 | every due timer that no timeout function starts or stops fires |
| TimerDue.StartedDue | rt-thread/src/timer.c:296-412 | a start from within the expiry loop takes the timer off the due ones and makes no other due |
| TimerDue.FiredNow | rt-thread/src/timer.c:494-553 | checked every tick, a timer fires at exactly its deadline |
| TimerDue.AheadTick | rt-thread/src/clock.c:72-97 | when the tick advances by one no deadline is passed over, across the wraparound of the tick |
| Timers.TimerList.Peek | rt-thread/src/timer.c:507-516 | the loop goes on exactly while a timer is due, with the earliest |
| Timers.TimerList.Expire | rt-thread/src/timer.c:509-544 | one turn: the earliest timer leaves all rows, its timeout function makes its calls, and then it is restarted if it is periodic and still active, else it is off; every other timer changes only as the calls say |
| Timers.TimerList.Settle | rt-thread/src/timer.c:532-543 | the end of a turn: a periodic timer that is still active is listed again at now plus its time, any other is not active, and no other timer changes |
| Timers.TimerList.Rerun | rt-thread/src/timer.c:532-543 | the start of the expired periodic timer: listed and active with deadline now plus its time, all other timers as before, nothing due that was not |
| Timers.TimerList.Act | rt-thread/src/timer.c:296-478 | one call of a timeout function, each kind by itself: what it does to rows, deadlines, times, flags and kinds, and that no other timer changes; the list stays valid and nothing becomes due |
| Timers.TimerList.FireDue | rt-thread/src/timer.c:507-547 | the loop of rt_timer_check: which timers fire, each at its deadline, and what becomes of every single timer |
| Timers.TimerList.Check | rt-thread/src/timer.c:494-553 | the loop ends with no due timer, having fired those that Fires says, each at the deadline it had at the start; a timer that fired and that no later timeout function touches runs again if it is periodic and its own function did not stop it, listed and active with deadline now plus its time, and otherwise is in no row and not active |
| Timers.TimerList.Tick | rt-thread/src/clock.c:72-97 | each tick fires the timers due at it and leaves none behind; a timer that no timeout function touches fires exactly if it is listed with this tick as deadline, and is then settled as its kind says; otherwise it is as before |
| Timers.TimerList.StartAtRest | rt-thread/src/timer.c:296-412 | a start between ticks lists the timer, active, at now plus its time, changes no other timer, and keeps the state in which no deadline is passed over |
| Timers.TimerList.StopAtRest | rt-thread/src/timer.c:422-448 | a stop between ticks takes the timer out of every row and clears its flag, changes no other timer, and keeps the state in which no deadline is passed over |
| TimerOne.FiredSettles | rt-thread/src/timer.c:494-553 | of a timer that fires and that no later timeout function touches: afterwards it runs, active and at now plus its time, if and only if it is periodic and its own timeout function did not stop it, whatever the earlier ones did |
| TimerOne.CheckAlone | rt-thread/src/timer.c:494-553 | a timer that no timeout function touches is changed by its own expiry and by nothing else |
| TimerOne.AloneTick | rt-thread/src/clock.c:72-97 | a timer left alone fires at a tick exactly if it is listed with this tick as deadline |
| TimerOne.PeriodicRun | rt-thread/src/timer.c:494-553 | over every run of ticks a periodic timer of time p that is left alone fires at every p-th tick after its start and at no other, across the wraparound of the tick |
| TimerOne.OneShotRun | rt-thread/src/timer.c:494-553 | over every run of ticks a one-shot timer of time p that is left alone fires at the p-th tick after its start and never again |
| ThreadTimers.TickWakes | rt-thread/src/thread.c:749-774 | rt_tick_increase makes ready, with -RT_ETIMEOUT, exactly the waiting threads whose deadline the new tick is, and leaves the others waiting |
| ThreadTimers.WaitCoupled | rt-thread/src/ipc.c:379-390 | a thread that starts to wait for a limited time, or to sleep, has its timer listed exactly once, at its deadline, and no other thread's timer changes |
| ThreadTimers.ResumeCoupled | rt-thread/src/thread.c:706-741 | a resumed thread's timer leaves the list, and no other thread's timer changes |
| ThreadTimers.WakesOnTime | rt-thread/src/clock.c:72-97 | a thread that waits or sleeps for n more ticks and is not resumed before is suspended until n ticks have passed and ready or running as soon as they have, whatever happens between the ticks |
| ThreadTimers.QuietFires | rt-thread/src/timer.c:494-553 | with timeout functions that touch no timer, as rt_thread_timeout, the expiry loop fires all due timers |
| Threads.BootedValid | rt-thread/src/scheduler.c:191-285 | the state in which only the idle thread runs is valid |
| Threads.CreatedValid | rt-thread/src/thread.c:117-213 | a new thread is not started, has the priority given and is in no list; no other thread changes |
| Threads.StartedValid | rt-thread/src/thread.c:288-318 | startup makes the thread ready at its initial priority, in that queue and with that priority's stored words; no other thread changes |
| Threads.SuspendedValid | rt-thread/src/thread.c:657-698 | a suspended thread is in no ready queue and no wait list, its timer is off until it is started, and no other thread changes |
| Threads.AsleepValid | rt-thread/src/thread.c:487-518 | a thread that sleeps is suspended with its timer on and in no list; no other thread changes |
| Threads.ResumedValid | rt-thread/src/thread.c:706-741 | a suspended thread becomes ready in the queue of its current priority, or runs on if it is the current one, waits nowhere and has its timer off; any other is left as it is, and no other thread changes |
| Threads.TimeoutValid | rt-thread/src/thread.c:749-774 | a thread whose timer expires is suspended, and afterwards ready with -RT_ETIMEOUT, its timer off, and in no wait list; no other thread changes |
| Threads.ReprioritizedValid | rt-thread/src/thread.c:570-611 | the thread has the new priority and keeps its state; a ready one changes queues; the stored words follow the priority, flat or two-level; no other thread changes |
| Threads.ClosedValid | rt-thread/src/thread.c:80-107 | a closed thread is in no queue and no wait list and has no timer |
| Threads.BlockedValid | rt-thread/src/ipc.c:79-130 | the current thread is suspended in exactly the wait list it blocks on, its timer on exactly if it waits for a limited time; no other thread changes |
| Threads.FifoArrival | rt-thread/src/ipc.c:79-94 | in a first-come list the thread that blocks goes last and the others keep their order |
| Threads.PriorityArrival | rt-thread/src/ipc.c:96-126 | in a list by priority it goes behind every waiter in front that is as urgent or more, and in front of a less urgent one, so that equals stand in order of arrival and a sorted list stays sorted |
| Threads.ScheduledValid | rt-thread/src/scheduler.c:411-523 | rt_schedule keeps the partition of threads into running, queued and suspended |
| Threads.TickedValid | rt-thread/src/clock.c:72-97 | the time slice is never 0 between ticks, and a tick keeps the partition |
| Threads.ScheduleRunsHighest | rt-thread/src/scheduler.c:411-523 | with the scheduler unlocked, and for any number of priorities up to 256, no ready thread is more urgent than the running one after rt_schedule |
| Threads.ScheduleLeavesSuspended | rt-thread/src/scheduler.c:411-523 | a thread that has suspended itself does not keep the processor |
| Threads.RoundRobin | rt-thread/src/scheduler.c:411-523 | with n runnable threads at the top priority, n consecutive calls run each of them once, in queue order, and return to the first |
| Threads.RingMembers | rt-thread/src/scheduler.c:411-523 | those threads are exactly the runnable ones of the top priority, each once |
| Threads.TimeSlice | rt-thread/src/clock.c:72-97 | a thread runs for its whole slice; the tick that ends it passes the processor on within its priority |
| Scheduler.Scheduler.constructor | rt-thread/src/scheduler.c:191-285 | for any number of priorities up to 256 queues and ready words agree from the start |
| Scheduler.Scheduler.InitThread | rt-thread/src/thread.c:117-213 | a new thread, in no list |
| Scheduler.Scheduler.InsertThread | rt-thread/src/scheduler.c:688-722 | the thread is last in its queue and the stored words have set its bits, on one level or two |
| Scheduler.Scheduler.RemoveThread | rt-thread/src/scheduler.c:785-815 | the thread leaves its queue; the bits are cleared, through the stored words, exactly when the queue, and on two levels the byte, becomes empty |
| Scheduler.Scheduler.Highest | rt-thread/src/scheduler.c:162-184 | one find-first-set, or two with more than 32 priorities, find the first thread of the most urgent non-empty queue |
| Scheduler.Scheduler.Schedule | rt-thread/src/scheduler.c:411-523 | refines Threads.Scheduled with the ready words, flat or two-level, in agreement with the queues |
| Scheduler.Scheduler.Switch | rt-thread/src/scheduler.c:440-462 | the running thread gives way: back to the end of its queue if it can still run, and the new one leaves its queue |
| Scheduler.Scheduler.Startup | rt-thread/src/thread.c:288-318 | refines Threads.Started, stored words included |
| Scheduler.Scheduler.SuspendThread | rt-thread/src/thread.c:657-698 | refines Threads.Suspended; -RT_ERROR exactly for a thread neither ready nor running |
| Scheduler.Scheduler.ResumeThread | rt-thread/src/thread.c:706-741 | refines Threads.Resumed; -RT_ERROR exactly for a thread that is not suspended |
| Scheduler.Scheduler.Timeout | rt-thread/src/thread.c:749-774 | refines the timeout step; the assertion at its start always holds |
| Scheduler.Scheduler.ChangePriority | rt-thread/src/thread.c:570-611 | refines Threads.Reprioritized, stored words and ready words included |
| Scheduler.Scheduler.CloseThread | rt-thread/src/thread.c:80-107 | refines Threads.Closed |
| Scheduler.Scheduler.Block | rt-thread/src/ipc.c:79-130 | refines Threads.Blocked: the FIFO and the priority search alike put the thread at its place |
| Scheduler.Scheduler.Sleep | rt-thread/src/thread.c:487-518 | refines Threads.Asleep |
| Scheduler.Scheduler.ResumeFirst | rt-thread/src/ipc.c:133-148 | the first waiter is resumed |
| Scheduler.Scheduler.TickIncrease | rt-thread/src/clock.c:72-97 | refines Threads.Ticked |
| Scheduler.Scheduler.EnterCritical | rt-thread/src/scheduler.c:855-870 | one more nesting level |
| Scheduler.Scheduler.ExitCritical | rt-thread/src/scheduler.c:915-940 | refines Threads.Exited: the count falls by one but not below 0, and rt_schedule is called exactly when it is then 0 |
| KernelLock.LockedRun | rt-thread/src/scheduler.c:411-523 | in every run of the whole system whose states all have the scheduler locked, through rt_schedule, ticks, timeouts and calls on any object, the running thread at the end is the one at the start |
| KernelLock.LockCounts | rt-thread/src/scheduler.c:855-940 | in every run the nesting count is that at the start plus the calls of rt_enter_critical minus those of rt_exit_critical |
| KernelLock.CriticalSection | rt-thread/src/scheduler.c:855-940 | from an rt_enter_critical on, while there have been fewer calls of rt_exit_critical than of rt_enter_critical, every run leaves the running thread the same |
| KernelLock.CriticalExit | rt-thread/src/scheduler.c:915-940 | after n calls of rt_enter_critical fewer than n of rt_exit_critical change nothing but the count, and with the n-th no ready thread is more urgent than the running one |
| KernelLock.LastExit | rt-thread/src/scheduler.c:915-940 | in the system: the last rt_exit_critical with its rt_schedule leaves no ready thread more urgent than the running one |
| TwoLevel.EnterKeeps | rt-thread/src/scheduler.c:713-717 | with more than 32 priorities: group word and byte table still agree with the queues after an insertion |
| TwoLevel.LeaveKeeps | rt-thread/src/scheduler.c:800-811 | with more than 32 priorities: after a removal the byte's bit and the group's bit are cleared exactly when queue and byte become empty |
| TwoLevel.LowestIsHighest | rt-thread/src/scheduler.c:168-174 | with more than 32 priorities: the lowest bit of the group and that of its byte name the most urgent non-empty queue |
| Scheduler.EnterKeeps | rt-thread/src/scheduler.c:713-717 | the words stored in a thread (number, number_mask, high_mask) set the bits of its priority, on one level or two |
| Scheduler.LeaveKeeps | rt-thread/src/scheduler.c:800-811 | they clear the bits exactly when the queue, and on two levels the byte, becomes empty |
| Words.OrOne | rt-thread/src/scheduler.c:715-717 | a word with a one-bit mask set by "or" has that bit and its old ones |
| Words.AndNotOne | rt-thread/src/scheduler.c:803-809 | a word with a one-bit mask cleared has its old bits but that one |
| Ipc.SideBlock | rt-thread/src/ipc.c:79-130 | a thread that blocks is a member of the side and not woken |
| Ipc.SideSignal | rt-thread/src/ipc.c:133-148 | resuming the first waiter makes it woken and leaves the others waiting |
| Ipc.SignalledFirst | rt-thread/src/ipc.c:133-148 | the thread resumed is the one that stands first, the others keep their order, and no other thread changes |
| Ipc.SideLeave | rt-thread/src/ipc.c:392-401 | a thread past its wait has error RT_EOK exactly if it was woken, else -RT_ETIMEOUT |
| Ipc.ServedSignal | rt-thread/src/ipc.c:133-148 | one item more and one signal keep: while someone waits, items do not exceed woken threads |
| Ipc.WaitRely | rt-thread/src/ipc.c:79-130 | a thread that blocks in one list disturbs no other list |
| IpcWaits.SemTakes | rt-thread/src/ipc.c:340-390 | rt_sem_take succeeds at once exactly if there is a unit; it waits exactly if there is none and the time is not 0, suspended in the list without error and with its timer on exactly if the time is limited |
| IpcWaits.MutexTakes | rt-thread/src/ipc.c:683-745 | rt_mutex_take waits exactly if another thread owns the mutex and the time is not 0, with its timer on exactly if the time is limited |
| IpcWaits.EventWaits | rt-thread/src/ipc.c:1190-1212 | a receiver that waits is suspended in the list with what it asked for, its timer on exactly if the time is limited |
| IpcWaits.MailboxWaits | rt-thread/src/ipc.c:1441-1713 | senders and receivers that wait are suspended in their list, with the timer on exactly if the time is limited |
| IpcWaits.QueueWaits | rt-thread/src/ipc.c:2160-2235 | rt_mq_recv waits exactly if no message is queued and the time is not 0, with its timer on exactly if the time is limited |
| Semaphores.Semaphore.Take | rt-thread/src/ipc.c:323-410 | refines Semaphores.Taken: a unit, -RT_ETIMEOUT at once, or a wait |
| Semaphores.Semaphore.Release | rt-thread/src/ipc.c:432-471 | refines Semaphores.Released: the first waiter gets the unit, else the value grows |
| Semaphores.Conservation | rt-thread/src/ipc.c:323-471 | in every run initial value plus releases equals value plus takes plus units handed to woken threads, and a positive value means an empty wait list |
| Semaphores.UnitsAddUp | rt-thread/src/ipc.c:323-471 | counted by what the calls return: takes that returned RT_EOK equal units at first plus releases, less those left and those on their way to a woken thread |
| Semaphores.FirstCome | rt-thread/src/ipc.c:79-148 | in every run of a first-come semaphore the threads woken by releases, followed by those that wait, stand in the order in which they began to wait |
| Semaphores.Semaphore.constructor | rt-thread/src/ipc.c:198-219 | the initial value and order |
| Semaphores.ReturnKeeps | rt-thread/src/ipc.c:395-407 | a taker that waited returns RT_EOK exactly if a release handed it a unit |
| Mutexes.MutexObject.Take | rt-thread/src/ipc.c:653-780 | refines Mutexes.Taken, recursion, boost and timeout included |
| Mutexes.MutexObject.Release | rt-thread/src/ipc.c:789-881 | refines Mutexes.Released, restoration and hand-over included; -RT_ERROR for a caller that is not the owner |
| Mutexes.Safety | rt-thread/src/ipc.c:653-881 | in every run value is 1 iff nobody owns the mutex iff it is held 0 times, and nobody waits for a free mutex |
| MutexHold.HoldCount | rt-thread/src/ipc.c:653-881 | in every run the hold count is the number of the owner's successful takes, a hand-over counting as one, minus its releases since it became the owner, all counted from what the calls return; and each call is answered as this ledger says |
| MutexHold.StepMatches | rt-thread/src/ipc.c:653-881 | one step: rt_mutex_take returns RT_EOK at once exactly for the ledger's owner and on a free mutex, rt_mutex_release exactly for the owner, and hold count and owner follow the ledger |
| MutexHold.OwnerChange | rt-thread/src/ipc.c:815-862 | the owner loses the mutex exactly by its own release that matches its first take; then the first waiter has it, or nobody |
| MutexHold.OwnerKeeps | rt-thread/src/ipc.c:653-881 | a thread that owns a mutex keeps it through every run in which it has released it less often than it has taken it |
| MutexHold.WakesIff | rt-thread/src/ipc.c:835-880 | rt_mutex_release calls rt_schedule exactly if it hands the mutex on |
| Mutexes.MutexObject.constructor | rt-thread/src/ipc.c:529-551 | free, not owned, held 0 times |
| Mutexes.ReturnKeeps | rt-thread/src/ipc.c:751-777 | after a wait rt_mutex_take returns RT_EOK exactly if its caller owns the mutex |
| MutexPriority.Inheritance | rt-thread/src/ipc.c:653-881 | in every run of one priority-ordered mutex in which the other steps leave the priorities of owner and waiters alone, the owner is at least as urgent as every waiter, and the stored priority is the one it had when it became the owner |
| KernelPriority.KernelInheritance | rt-thread/src/ipc.c:653-881 | in every run of the whole system without priority changes from outside, in which no thread takes a mutex while it owns another one: the owner of every mutex is at least as urgent as each of its waiters, and its stored priority is the one it had when it became the owner |
| KernelPriority.BootedInheritance | rt-thread/src/ipc.c:653-881 | the same from the start of the system, for any priorities, threads and objects with priority-ordered mutexes |
| KernelPriority.BootInherits | rt-thread/src/ipc.c:529-551 | the state after initialisation satisfies the priority invariant of every mutex |
| KernelPriority.StepInherits | rt-thread/src/ipc.c:653-881 | every step of the system, on any object or thread, keeps the priority invariant of every mutex and the separation of owners and waiters |
| KernelPriority.MutexSteady | rt-thread/src/ipc.c:653-881 | a step on a mutex changes the priority of nobody but its owner |
| KernelPriority.ObjSteady | rt-thread/src/ipc.c:323-2267 | steps on semaphores, events, mailboxes and message queues change no priority |
| MutexPriority.ReleasePrio | rt-thread/src/ipc.c:827-859 | the final release gives the owner back the priority it had when it became the owner |
| MutexPriority.TakePrio | rt-thread/src/ipc.c:653-780 | a take keeps the priority invariant: the owner is boosted to the waiter's priority |
| Events.EventObject.Send | rt-thread/src/ipc.c:1028-1112 | refines Events.Sent: the sweep over the waiters with bits consumed along the way |
| Events.EventObject.Receive | rt-thread/src/ipc.c:1126-1236 | refines Events.Received |
| Events.EventObject.constructor | rt-thread/src/ipc.c:914-932 | no events |
| Events.SweepKeeps | rt-thread/src/ipc.c:1049-1100 | although waiters woken earlier in the loop clear bits seen by later ones, no remaining waiter is satisfied by the final set |
| Events.NoneSatisfied | rt-thread/src/ipc.c:1028-1236 | in every run no waiting thread has its AND or OR condition satisfied by the current set |
| EventLaws.ReceiveBits | rt-thread/src/ipc.c:1126-1236 | bit by bit: rt_event_recv succeeds at once exactly if all the bits asked for, or one of them, are set; it returns those that are set and asked for; RT_EVENT_FLAG_CLEAR clears the bits asked for and no others; otherwise nothing changes |
| EventLaws.SendBits | rt-thread/src/ipc.c:1028-1112 | bit by bit: each waiter is woken exactly if what it asked for is there when its turn comes, and gets the bits asked for that are there; a bit is there unless a waiter woken before took it with RT_EVENT_FLAG_CLEAR, and those left are the set at the end |
| EventLaws.SweepBits | rt-thread/src/ipc.c:1049-1100 | the same for the loop over the waiters from any set |
| Events.WakesIff | rt-thread/src/ipc.c:1102-1108 | rt_event_send calls rt_schedule exactly if some waiter's condition is satisfied by the set with the new bits |
| Events.ReturnKeeps | rt-thread/src/ipc.c:1213-1235 | a receiver that waited returns all the bits it asked for, or at least one of them, or times out |
| Mailboxes.Mailbox.constructor | rt-thread/src/ipc.c:1293-1320 | an empty ring |
| Mailboxes.Mailbox.Send | rt-thread/src/ipc.c:1441-1561 | one region: the ring in place refines push-back on a bounded queue, or a wait, or -RT_EFULL |
| Mailboxes.Mailbox.Receive | rt-thread/src/ipc.c:1589-1713 | one region: pop-front, the value returned is the oldest, or a wait, or -RT_ETIMEOUT |
| Mailboxes.BoundedFifo | rt-thread/src/ipc.c:1441-1714 | in every run received values are a prefix of sent values, at most size messages are stored, and no wakeup is lost for receivers or senders |
| MailboxRuns.ReceivedInOrder | rt-thread/src/ipc.c:1441-1714 | in every run the values that receives return, followed by the messages still there, are the messages there at first followed by the values of the sends that succeeded |
| MailboxRuns.HistoryIs | rt-thread/src/ipc.c:1441-1714 | the histories in the invariant are exactly these values |
| MailboxRuns.Answers | rt-thread/src/ipc.c:1441-1714 | a send succeeds at once exactly while fewer messages than fit have been stored and not fetched, a receive exactly while one has; otherwise -RT_EFULL, -RT_ETIMEOUT or a wait |
| MessageQueues.MessageQueue.constructor | rt-thread/src/ipc.c:1780-1827 | all nodes on the free list, the queue empty |
| MessageQueues.MessageQueue.SendBegin | rt-thread/src/ipc.c:1980-1997 | a free node goes into flight, or none is left |
| MessageQueues.MessageQueue.SendFill | rt-thread/src/ipc.c:1999-2002 | filling a node in flight with interrupts enabled disturbs neither the queue nor other nodes in flight; rt_mq_send clears its link as well |
| MessageQueues.MessageQueue.Link | rt-thread/src/ipc.c:2004-2020 | the node's message is pushed at the back, or by rt_mq_urgent at the front, of the deque in link order |
| MessageQueues.MessageQueue.Deliver | rt-thread/src/ipc.c:2004-2039 | the last region of a send: the push, and the first sleeping receiver woken |
| MessageQueues.MessageQueue.Unlink | rt-thread/src/ipc.c:2237-2247 | the front message leaves the deque; its node is in flight |
| MessageQueues.MessageQueue.Fetch | rt-thread/src/ipc.c:2160-2250 | one region of rt_mq_recv: pop-front, give up, or wait |
| MessageQueues.MessageQueue.RecvCopy | rt-thread/src/ipc.c:2252-2253 | the receiver gets the first min(size, msg_size) bytes of its message |
| MessageQueues.MessageQueue.RecvFree | rt-thread/src/ipc.c:2255-2261 | the node returns to the free list; free list, queue and nodes in flight partition the pool |
| MessageQueues.NoLostWakeup | rt-thread/src/ipc.c:1963-2267 | in every run messages linked are those fetched plus those queued, and while a receiver sleeps queued messages do not exceed woken receivers that have yet to look |
| MessageQueues.FetchedOnce | rt-thread/src/ipc.c:1963-2267 | in every run the messages fetched and those still queued are those queued at first and those sent, each as often |
| MessageQueues.FetchedInOrder | rt-thread/src/ipc.c:1963-2267 | in every run without urgent messages they come out in the order in which they went in |
| MessageQueues.UrgentNext | rt-thread/src/ipc.c:2053-2150 | an urgent message is the next to be fetched |
| MessageQueues.PoolParted | rt-thread/src/ipc.c:1805-1821 | the pool is cut into as many disjoint nodes as fit |
| Kernel.KernelSafety | rt-thread/src/thread.c:562-774 | in every run over all threads and objects, with ticks, timeouts, priority changes and calls on any object: the invariant holds and every thread is in exactly the one place its state says |
| Kernel.BootInv | rt-thread/src/scheduler.c:191-285 | the system starts in a state that satisfies the invariant |
| Kernel.ObjStepRely | rt-thread/src/ipc.c:79-148 | a step on one object leaves what every other object relies on |
| Kernel.OnKeeps | rt-thread/src/ipc.c:323-2267 | a step on one object keeps the invariant of all objects |
| JsonRoundTrip.RoundTrip | packages/cJSON-latest/cJSON.c:197-553 | parsing the printed text of any tree, formatted or not, gives the tree back and consumes the whole text |
| JsonRoundTrip.NumberBack | packages/cJSON-latest/cJSON.c:102-120 | a printed 32-bit integer is parsed back, whatever ends it |
| JsonRoundTrip.StringBack | packages/cJSON-latest/cJSON.c:198-255 | a quoted, escaped string is parsed back to its characters |
| JsonRoundTrip.SkipBlank | packages/cJSON-latest/cJSON.c:326-326 | any characters up to 32 are white space between tokens |
| JsonUnicode.ReadsBack | packages/cJSON-latest/cJSON.c:197-242 | a decoder written from the rules of RFC 3629 (lead bytes, continuation bytes, shortest form, no surrogates) reads every code point back from the bytes the parser writes for it |
| JsonUnicode.EscapeDecodes | packages/cJSON-latest/cJSON.c:217-242 | four hexadecimal digits of either case, or a surrogate pair above FFFF, become the bytes of their code point |
| JsonUnicode.EscapesParse | packages/cJSON-latest/cJSON.c:198-255 | a string of such escapes, for any code points from 1 to 10FFFF outside the surrogates, parses to a string that the decoder reads as just these code points |
| JsonUnicode.EscapeDropped | packages/cJSON-latest/cJSON.c:217-219 | an escape of 0 or of a lone second surrogate stands for nothing |
| JsonDecimal.NumberRead | packages/cJSON-latest/cJSON.c:102-120 | a number of the grammar of RFC 8259, with fraction and exponent, is read as the decimal number it denotes, with the whole numeral consumed |
| JsonDecimal.IntegerText | packages/cJSON-latest/cJSON.c:153-180 | an integer is printed as a numeral of that grammar, without leading zeros, that denotes it |
| JsonGrammar.AcceptedIff | packages/cJSON-latest/cJSON.c:329-553 | parse_value returns an item and a rest exactly if the item's tree, with any white space between its tokens and commas and colons where the grammar has them, is written in front of the rest; leaves are read by parse_number and parse_string |
| JsonGrammar.TreeAccepted | packages/cJSON-latest/cJSON.c:363-553 | every text of the grammar is accepted with its value |
| JsonGrammar.ValueSpelled | packages/cJSON-latest/cJSON.c:363-553 | every accepted text is one of the grammar |
| JsonSafe.PrintedSafe | packages/cJSON-latest/cJSON.c:258-312 | every printed text has well-formed escapes and so may be parsed |
| JsonSafe.DecodeFits | packages/cJSON-latest/cJSON.c:204-247 | the second loop of parse_string writes no more characters than its first loop counted, for all well-formed escapes |
| JsonSafe.EscapeFits | packages/cJSON-latest/cJSON.c:211-245 | no escape writes more characters than were counted for it |
| JsonParser.ReadNumber | packages/cJSON-latest/cJSON.c:102-120 | the loops compute the number that ParseNumber says |
| JsonParser.ReadString | packages/cJSON-latest/cJSON.c:198-255 | the decoding loop refines ParseString, every write within the buffer its first loop sized |
| JsonParser.CountString | packages/cJSON-latest/cJSON.c:204-204 | the first loop counts what the specification of the buffer size counts |
| JsonParser.WriteUnicode | packages/cJSON-latest/cJSON.c:217-242 | an escaped code unit, or a surrogate pair, becomes the UTF-8 bytes of its code point, written from the last to the first |
| JsonParser.ReadValue | packages/cJSON-latest/cJSON.c:363-375 | refines ParseValue |
| JsonParser.ReadArray | packages/cJSON-latest/cJSON.c:412-437 | the loop refines the recursive ParseArray |
| JsonParser.ReadMember | packages/cJSON-latest/cJSON.c:530-549 | a name, a colon and a value, each with white space around it |
| JsonParser.ReadObject | packages/cJSON-latest/cJSON.c:520-553 | the loop refines the recursive ParseObject |
| JsonParser.Parse | packages/cJSON-latest/cJSON.c:329-345 | the root item and where the text goes on; with the flag, only white space may follow |
| JsonPrint.PrintString | packages/cJSON-latest/cJSON.c:258-312 | the three loops agree: the counted length is that of the escaped text, and the buffer holds that text and a NUL |
| JsonPrint.WriteEscape | packages/cJSON-latest/cJSON.c:288-306 | one turn of the third loop writes the escape of its character, sprintf's terminating NUL within the buffer |
| JsonPrint.PrintNumber | packages/cJSON-latest/cJSON.c:153-180 | the text of a 32-bit integer fits its buffer |
| JsonPrint.ComposeArray | packages/cJSON-latest/cJSON.c:491-516 | joining the entries stays within the summed length and gives the text of the array |
| JsonPrint.ComposeObject | packages/cJSON-latest/cJSON.c:634-663 | joining names and values stays within the summed length and gives the text of the object |
| JsonPrint.PrintArray | packages/cJSON-latest/cJSON.c:440-517 | the array's text from separately printed entries |
| JsonPrint.PrintObject | packages/cJSON-latest/cJSON.c:556-664 | the object's text from separately printed names and values |
| JsonPrint.PrintValue | packages/cJSON-latest/cJSON.c:378-409 | the text of any value at any depth |
| JsonPrint.Print | packages/cJSON-latest/cJSON.c:348-349 | the string returned is the text of the tree, for both formats |
| JsonLayout.FormattedLayout | packages/cJSON-latest/cJSON.c:433-664 | the formatted text is the unformatted one laid out in one pass: a new line with a tab per open bracket before each member, a tab behind its colon, a new line with a tab less before a closing brace, two less for an empty object's, a space behind a comma in an array, and no other white space |
| PowerOfTwo.Pow2gt | packages/cJSON-latest/cJSON.c:123-123 | the least power of two that is not below x, and for x above 1 less than twice x |
| PowerOfTwo.SmearOnes | packages/cJSON-latest/cJSON.c:123-123 | the five shift-and-or steps set every bit below the highest one |
| JsonBuffer.PrintBuffer.Ensure | packages/cJSON-latest/cJSON.c:127-142 | room for the characters asked for behind the offset; what was written is kept |
| JsonBuffer.PrintBuffer.Update | packages/cJSON-latest/cJSON.c:144-150 | the offset behind the string just written |
| JsonBuffer.PrintBuffer.PrintString | packages/cJSON-latest/cJSON.c:258-312 | the quoted string at the offset within the ensured room, what stands before it kept |
| JsonBuffer.PrintBuffer.PrintNumber | packages/cJSON-latest/cJSON.c:153-180 | the number at the offset within the ensured room |
| JsonBuffer.PrintBuffer.PrintValue | packages/cJSON-latest/cJSON.c:378-393 | the text of any value behind what the buffer holds, the offset not beyond its end |
| JsonBuffer.PrintBuffer.PrintArray | packages/cJSON-latest/cJSON.c:459-474 | the array's text behind what the buffer holds, every write within the ensured room |
| JsonBuffer.PrintBuffer.PrintObject | packages/cJSON-latest/cJSON.c:576-613 | the object's text behind what the buffer holds, every write within the ensured room |
| JsonBuffer.PrintBuffered | packages/cJSON-latest/cJSON.c:351-360 | the same text as the unbuffered printers, for every tree, format and first buffer size |
| JsonMinify.MinifiedText | packages/cJSON-latest/cJSON.c:741-756 | minifying the formatted text of a tree gives its unformatted text; an unformatted text stays as it is |
| JsonComments.PiecesMinified | packages/cJSON-latest/cJSON.c:741-756 | white space, line comments and block comments between any pieces of a text are taken out; strings, with whatever is in them, and all other characters are kept |
| JsonComments.SharedStar | packages/cJSON-latest/cJSON.c:751-751 | a slash right behind the opening mark of a comment ends it, the star serving for both marks |
| JsonMinify.Minify | packages/cJSON-latest/cJSON.c:741-756 | the in-place loop leaves the minified text of any text whose strings and comments are closed |

## Left out

- SMP branches, signals (with them the retry of `rt_mutex_take` after an interrupted wait, `ipc.c:756-757`), hooks, debug
  output, stack checks and context-switch code.
- The soft-timer list and its thread (`timer.c:570-676`): its loop calls timeout functions with the scheduler unlocked.
- `mem.c`, `mempool.c`, `object.c`, `device.c`, `idle.c`, `irq.c`, `components.c`, the drivers and the board code: compiled
  out, easy, or plumbing.
- Detach, delete and reset of IPC objects, which resume all waiters with an error (`ipc.c:156-190`), and the control calls.
- The heap lock: each call on a heap is one step. In `slab.c` the lock is released around page calls; the interleavings
  this allows are not modelled. Failure of `rt_sem_take` on the lock is not modelled.
- Word and byte layout of memory: a multi-byte word is one cell, so partial overlap of words by unaligned access is not
  expressed. Overflow of sizes near 2^32, of the semaphore's value and of the nesting and hold counters is excluded.
- SlabHeaps: zone headers, chunk links and page heads are fields of the class, so that the allocator's own writes into free memory are
  not in the memory that `Realloc` copies in. The statistics counters of `slab.c` are not modelled.
- Timers.TimerList.Check: the tick stands still during the check; timeout functions are given as scripts of the calls they make on
  timers (start, stop, set time, one-shot, periodic), starts are at least one tick ahead, and no timeout function starts or
  frees its own timer: a one-shot timer that its own function starts would stay listed with its flag cleared. Listed and
  new deadlines lie less than RT_TICK_MAX/2 apart.
- Kernel.KernelSafety: a thread that waits for an object is not deleted and not resumed by others; a blocking call is made by the
  running thread, which makes its next step only when it runs again. `rt_thread_resume` is one step, although the source enables
  interrupts for an instant before the thread enters the ready queue. The system starts with one running thread.
- JsonGrammar.AcceptedIff: a number or a string is a leaf as parse_number or parse_string reads it; the numerals and escapes of the
  standard are covered by JsonDecimal.NumberRead and JsonUnicode.EscapesParse, the lenient ones beyond it (leading zeros, an
  exponent without digits, a string that the end of the text closes) only as far as the code defines them.
- MutexPriority.Inheritance: for one mutex whose owner and waiters get no other priority from the other steps; that this is so in the
  whole system is KernelPriority.KernelInheritance.
- KernelPriority.KernelInheritance: for callers that take no mutex while they own another one and do not use
  `RT_THREAD_CTRL_CHANGE_PRIORITY`, and for priority-ordered mutexes; the code does not do more.
- ThreadTimers.WakesOnTime: the steps between ticks are any that keep the coupling of timer flags and timer list and leave the thread's
  own timer alone; the steps that start and stop threads' timers keep it (WaitCoupled, ResumeCoupled).
- Events: an event set is a set of bit numbers instead of a 32-bit word. A receiver asks for AND or for OR, not for both.
- Mailboxes and message queues: the time left for a further wait, which the source recomputes from the tick, is an arbitrary
  argument of each region.
- Scheduler: the ready words and masks are natural numbers with bit operations defined on them.
- JsonParser.ReadNumber: gives the digits and a decimal exponent instead of a floating-point value, so the rounding of `pow` and of the
  product is not modelled; numbers that are not 32-bit integers are not printed.
- cJSON: allocation does not fail. Reference items, look-up by name, editing of trees and deletion are not modelled.
- JsonParser.Parse: for texts in which, behind every quote, each backslash up to the next quote is followed by a character, and each \u by
  four that are neither quote nor backslash, hexadecimal or not. In other texts the code's pointer can leave the text or the string.
  JsonSafe.PrintedSafe says that all printed texts are such.
- JsonParser.ReadString: for the same texts.
- JsonParser.ReadValue: for the same texts.
- JsonParser.ReadArray: for the same texts.
- JsonParser.ReadMember: for the same texts.
- JsonParser.ReadObject: for the same texts.
- JsonMinify.Minify: for texts whose strings and block comments end before the text does; in others the code's pointer leaves the text.
- JsonBuffer.PrintBuffered: for texts that fit into 2^30 characters with some slack, because the buffer's size is an `int`; what the
  functions return besides the buffer is not modelled.
