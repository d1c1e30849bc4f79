# Verified models of the FOS kernel and user library

Dafny models, with proofs, of the parts of the FOS teaching kernel whose correctness lies in invariants over whole
runs. `dafny verify dfyconfig.toml` checks everything. Paths below are relative to the root of the repository.

## What is modelled

| files | subsystem |
|---|---|
| `Memory`, `Blocks`, `HeapImage`, `CrackedHeap`, `TornHeap`, `Allocator` | the boundary-tag heap: byte memory with headers, footers, sentinels and the intrusive free list, the list macros on it, and what is left of it after a block is lost or cut at an odd size |
| `SchedState`, `SchedMoves`, `BoundedWaiting`, `Scheduler` | the priority round-robin scheduler with promotion, its requests, and channels |
| `SleepLock` | sleep locks over a guard spin lock and a channel, one atomic step at a time |
| `Reservation`, `ReservationBoard`, `ReservationSafety`, `ReservationEnd` | the airline reservation protocol for any number of customers, clerks and tickets |
| `Mmu`, `PageTables`, `Paging`, `PageCheck` | two-level paging with reference-counted frames, and the kernel's own scenario for it |
| `PageFile` | the page file as a map from slots to contents |
| `StabSearch` | the search over debug entries |
| `Sorting`, `ArrayPrograms` | quicksort, merge sort, quickselect and the master program that compares them |
| `UserHeap` | the page allocator of the user heap |
| `Numbers` | number printing and parsing |
| `Counting` | finite sets and sequences, shared |

Code that updates state in place is a class or a method over arrays. Each such method is tied to a function of the old
state, and the laws are proved about those functions. Ghost parameters such as the position of a block in the layout
only name what the caller's pointer means.

## Where the code does not do what it says

* After `initialize_dynamic_allocator` the list has a first element but no last one (dynamic_allocator.c:122-124), and
  it is a list only if memory held 0 where its links lie (`InitializeDynamicAllocator`). If the heap can grow, the
  first allocation leaves it well formed exactly if it fits the first block; otherwise that block drops out of the
  list (`AllocBlockFF`, `LostBlock`, `LoseBlock`) and stays out until the block behind it is freed. That repairs the
  heap exactly if no block from index 3 on is free; otherwise the other free blocks drop out in turn or `lh_last`
  stays NULL (`FreeBlock`, `Mends`, `RepairBlock`, `SpoilHeap`).
* `alloc_block_FF` does not check its first `sbrk` for -1 and then writes from address 3 on (`ObtainFirstPages`).
* `alloc_block_BF` does not round its size (dynamic_allocator.c:256). If a rest is cut off, an odd size from 9 on ruins
  the heap (`AllocBlockBF`, `TornFits`), and sizes from 1 to 7 overwrite a link that the list macros then store
  through, below 2^28, where neither the kernel's nor the user's heap lies (`CutSmall`).
* `sleep` drops the guard before it takes the queue lock (channel.c:39), so a wake-up can be lost (`LostWakeup`). It is
  kept exactly when nobody stands between the two while a release empties the channel (`DrainKeepsIff`, `WakeupsKept`,
  `LateIsLost`). Exclusion holds all the same.
* `sched_kill_env` never finds an environment that sleeps on a channel, and does nothing (`KillReaches`) or, on an idle
  CPU, panics (`KillEnvironment`); `sched_exit_env` always panics on an idle CPU (`ExitEnvironment`).
* With starvation threshold 0 one tick promotes to the top instead of by one level (`OneLevelExactly`).
* Mapping a page again onto its own frame ignores the new permissions (`MapFrame`, `MapTwice`).
* `pf_free_env` forgets pages at or above USER_TOP (`PfFreeEnv`, `LoseFrame`), and `pf_add_empty_env_page` without
  zeroing shows stale disk contents. A second `pf_free_env` of an environment reads through a NULL directory.
* `stab_binsearch` increments a pointer, hence by 4, and can miss a match followed too closely (`TooClose`;
  `FindsIff` says exactly when). Its empty answer means that no entry of the type exists, not that none lies at or
  below the address (`EmptyRegion`).
* `ltostr` does not survive the least long (`LeastParsesToZero`).
* In the user heap sizes above 2^32 - 4096 wrap and size 0 or such a size is answered with a page that may be taken
  (`AllocateInPageAllocator`); freeing an address inside an allocation can free the first page of the next (`Free`).
* The master program reads index -1 of the sorted array when there is only one element (`MasterChecks`).

## Assumptions

* `sbrk` returns the old break, moves it by whole pages or answers -1, and writes the END word; new pages are zero.
  Block sizes and addresses stay below 2^32.
* The clock is stopped while the CPU is idle and somebody is ready (sched.c:123); `env_free` removes the environment;
  priorities are below the number of queues; ticks stay below 2^32. The switch itself is a step of its own.
* Semaphore operations are atomic, and a signal may wake any blocked process. Customers have flight type 1, 2 or 3.
* Reference counts stay below 65535, page table frames are not mapped as data, permissions are below 4096, and only
  user entries of the directories are considered.
* `kmalloc` succeeds, and disk transfers do not fail.
* The block allocator's part of the user heap begins at USER_HEAP_START. The break limit is page aligned and
  inside the user heap. The table of sizes has one spare entry, which the scan may write before its range check.
* `RAND` may return any value of its range; the C `int` and `long` have 32 bits.

## Model

| member | source | states |
|---|---|---|
| HeapImage.RemoveLinked | FOS_PROJECT_2024_TEMPLATE/inc/queue.h:270-283 | Rewriting only the neighbours of an element of a doubly linked list leaves exactly the list without it: every next and previous word, and no byte outside link fields changes |
| HeapImage.InsertLinked | FOS_PROJECT_2024_TEMPLATE/inc/queue.h:202-213 | Writing the new element and its two neighbours gives exactly the list with the element at that position |
| HeapImage.InsertBeforeLinked | FOS_PROJECT_2024_TEMPLATE/inc/queue.h:220-234 | The four stores of the insert-before macro, in its order, give the list with the element before the given one |
| HeapImage.WholeDone | FOS_PROJECT_2024_TEMPLATE/lib/dynamic_allocator.c:202-207 | Tagging a listed free block as allocated and unlinking it gives the image of the layout with that block taken whole |
| HeapImage.SplitDone | FOS_PROJECT_2024_TEMPLATE/lib/dynamic_allocator.c:208-217 | Tagging both parts, linking the rest in behind and unlinking the front gives the image of the layout with the block split |
| HeapImage.GrowMerged | FOS_PROJECT_2024_TEMPLATE/lib/dynamic_allocator.c:226-237 | A new END word and the enlarged tags of a free last block give the image of the grown layout |
| HeapImage.GrowAppended | FOS_PROJECT_2024_TEMPLATE/lib/dynamic_allocator.c:238-243 | A new END word, the tags of the new page and its link at the end of the list give the image of the grown layout |
| CrackedHeap.SameUpTo | FOS_PROJECT_2024_TEMPLATE/inc/queue.h:202-283 | Links and first element determine a list as far as it goes |
| CrackedHeap.NoLonger | FOS_PROJECT_2024_TEMPLATE/inc/queue.h:202-283 | No list is longer by one than another one in the same memory that starts like it |
| CrackedHeap.LostKept | FOS_PROJECT_2024_TEMPLATE/lib/dynamic_allocator.c:161-287 | What is written behind the lost first block leaves it tagged free and linked to nothing |
| CrackedHeap.WholeLayout | FOS_PROJECT_2024_TEMPLATE/lib/dynamic_allocator.c:332-343 | The lost block and the rest form one tiling with correct tags, so free_block finds the lost block by its footer; its own link words are those of a one-element list |
| CrackedHeap.ReleaseShift | FOS_PROJECT_2024_TEMPLATE/lib/dynamic_allocator.c:329-424 | Freeing a block that does not border on the lost one gives the layout that freeing it in the rest gives |
| CrackedHeap.NoSurvivors | FOS_PROJECT_2024_TEMPLATE/lib/dynamic_allocator.c:329-424 | When the block behind the lost one is freed nothing stays in the list exactly if no block from index 3 on is free |
| Allocator.Heap.ListRemove | FOS_PROJECT_2024_TEMPLATE/inc/queue.h:270-283 | On any well-formed list the result is the list without the element, and only link words change; the head fields follow if the element was at that end, whatever they held, which is what removing a lost block does to a list it is not in |
| Allocator.Heap.ListInsertAfter | FOS_PROJECT_2024_TEMPLATE/inc/queue.h:202-213 | The element is put behind the given one; head fields and links agree |
| Allocator.Heap.ListInsertBefore | FOS_PROJECT_2024_TEMPLATE/inc/queue.h:220-234 | The element is put before the given one; head fields and links agree |
| Allocator.Heap.ListInsertHead | FOS_PROJECT_2024_TEMPLATE/inc/queue.h:240-249 | The element is put first, on an empty list too; last stays as it was unless the list was empty |
| Allocator.Heap.ListInsertTail | FOS_PROJECT_2024_TEMPLATE/inc/queue.h:255-264 | The element is put last; needs only first and last, not the size, to be right, which is what growth of a heap without a last element relies on |
| Blocks.PlaceKeepsExactly | FOS_PROJECT_2024_TEMPLATE/lib/dynamic_allocator.c:198-220 | Cutting an allocation out of a free block leaves a tiling of even blocks of at least 16 bytes if and only if the block is taken whole or the cut size is even and at least 16; no two free blocks become adjacent |
| Blocks.ReleaseKeeps | FOS_PROJECT_2024_TEMPLATE/lib/dynamic_allocator.c:292-425 | Freeing a block and merging it with its free neighbours on both sides keeps the tiling and leaves no two free blocks adjacent |
| Blocks.ReleaseUndoesPlace | FOS_PROJECT_2024_TEMPLATE/lib/dynamic_allocator.c:161-425 | Freeing the block just cut out of a free block gives back the very same layout, split or not |
| Blocks.ReleaseGives | FOS_PROJECT_2024_TEMPLATE/lib/dynamic_allocator.c:292-425 | A release gives exactly the bytes of its block back, however it merges, and no other allocated block moves |
| Blocks.GrowKeeps | FOS_PROJECT_2024_TEMPLATE/lib/dynamic_allocator.c:222-243 | Growth by a page, merged into a free last block or appended as a new block, keeps tiling and non-adjacency up to the new break |
| Blocks.GrowByKeeps | FOS_PROJECT_2024_TEMPLATE/lib/dynamic_allocator.c:222-245 | The same for any number of pages |
| Blocks.GrowByIsOneTail | FOS_PROJECT_2024_TEMPLATE/lib/dynamic_allocator.c:222-245 | Growing page by page is the same as one free tail enlarged, or added, by all the pages at once |
| Blocks.FirstFitIsLowest | FOS_PROJECT_2024_TEMPLATE/lib/dynamic_allocator.c:194-221 | The first block that fits is the one at the lowest address |
| Blocks.RoomForPiece | FOS_PROJECT_2024_TEMPLATE/lib/dynamic_allocator.c:167-192 | In a tiling of even blocks one with room for the size and its tags has room for the rounded piece too, so rounding never turns a block down |
| Blocks.AnswerIs | FOS_PROJECT_2024_TEMPLATE/lib/dynamic_allocator.c:190-221 | What first fit answers, in bytes and without the names the code uses: the first free block with room for the size and 8 bytes of tags is cut for the least even piece that holds them, at least 16; nothing exactly if there is no such block |
| Blocks.SmallestIs | FOS_PROJECT_2024_TEMPLATE/lib/dynamic_allocator.c:257-286 | The same for best fit: the first of the smallest free blocks with room |
| Blocks.PlaceTakes | FOS_PROJECT_2024_TEMPLATE/lib/dynamic_allocator.c:198-220 | An allocation takes exactly its block from the free bytes, at most 14 more than the piece, and no other allocated block moves |
| Blocks.StillFits | FOS_PROJECT_2024_TEMPLATE/lib/dynamic_allocator.c:222-245 | Growth never makes a request that fitted stop fitting, so a heap with room is never grown |
| Blocks.NoNeedToGrow | FOS_PROJECT_2024_TEMPLATE/lib/dynamic_allocator.c:222-245 | If the first scan finds a fit, growing by no page at all is what the retries come to |
| Blocks.AllocatedStays | FOS_PROJECT_2024_TEMPLATE/lib/dynamic_allocator.c:222-245 | Growth leaves every allocated block where it is |
| HeapImage.FreeAddrsSorted | FOS_PROJECT_2024_TEMPLATE/lib/dynamic_allocator.c:292-425 | The free list in block order is in address order, its blocks at least 16 bytes apart |
| HeapImage.ScanNext | FOS_PROJECT_2024_TEMPLATE/lib/dynamic_allocator.c:194-221 | The next word stored in a free block is the address of the next free block, or NULL behind the last |
| HeapImage.NeighbourWords | FOS_PROJECT_2024_TEMPLATE/lib/dynamic_allocator.c:332-343 | The footer below and the header above a block being freed tell whether those neighbours are free and how large they are; where there is no neighbour the sentinel reads as allocated |
| HeapImage.ConfinedKeepsPayloads | FOS_PROJECT_2024_TEMPLATE/lib/dynamic_allocator.c:161-425 | Writes confined to free blocks, their tags and the END word leave the payload of every allocated block as it was |
| Allocator.Heap.SetBlockData | FOS_PROJECT_2024_TEMPLATE/lib/dynamic_allocator.c:138-156 | Header and footer both become size and status, and no other byte changes |
| Allocator.Heap.InitializeDynamicAllocator | FOS_PROJECT_2024_TEMPLATE/lib/dynamic_allocator.c:87-134 | One free block between BEG and END, first in the list, while last stays unset; its link words are never written, so the list is a list if and only if memory held 0 there |
| Allocator.Heap.ObtainFirstPages | FOS_PROJECT_2024_TEMPLATE/lib/dynamic_allocator.c:171-178 | The first request obtains pages enough for the block, its tags and the sentinels. Exactly if sbrk fails it goes wild: the unchecked -1 makes it store its first header at address 3 |
| Allocator.PieceIs | FOS_PROJECT_2024_TEMPLATE/lib/dynamic_allocator.c:165-192 | Rounding a request computes the least even piece that is at least 16 and holds the request and its tags, and nothing else does |
| Allocator.FirstPagesLeast | FOS_PROJECT_2024_TEMPLATE/lib/dynamic_allocator.c:171-178 | The pages of the first request are the fewest that hold the piece and the sentinels |
| Allocator.Heap.TakeWhole | FOS_PROJECT_2024_TEMPLATE/lib/dynamic_allocator.c:202-207 | A free block taken whole leaves the list and the layout marks it allocated; the list holds the remaining free blocks exactly, on a heap that lost its first block too |
| Allocator.Heap.SplitBlock | FOS_PROJECT_2024_TEMPLATE/lib/dynamic_allocator.c:208-217 | A free block is split: the front is allocated and the rest takes its place in the list, if the cut size is even. Cut at an odd size, the rest is listed but reads as allocated |
| Allocator.Heap.TornFits | FOS_PROJECT_2024_TEMPLATE/lib/dynamic_allocator.c:268-281 | Counterexample: after an odd cut no layout at all, wherever it begins, matches memory and the list |
| Allocator.Heap.TornIsNeither | FOS_PROJECT_2024_TEMPLATE/lib/dynamic_allocator.c:268-281 | So such a heap is neither well formed nor one that lost its first block |
| Allocator.Heap.ScanFirstFit | FOS_PROJECT_2024_TEMPLATE/lib/dynamic_allocator.c:190-221 | Returns 0 and changes nothing if no listed block fits; otherwise allocates the first that fits, and writes only inside free blocks; a lost block is not among them |
| Allocator.Heap.GrowHeap | FOS_PROJECT_2024_TEMPLATE/lib/dynamic_allocator.c:222-243 | Fails exactly if the break would pass the limit; otherwise the listed blocks grow by one free page, merged into a free last one or appended; a last that is NULL makes the new page the whole list |
| Allocator.Heap.LostBlock | FOS_PROJECT_2024_TEMPLATE/lib/dynamic_allocator.c:122-134 | Counterexample: on a heap that lost its first block no sequence at all matches both the list fields and the links |
| Allocator.Heap.GrowAndRetry | FOS_PROJECT_2024_TEMPLATE/lib/dynamic_allocator.c:222-245 | When nothing fits: growth and the retry come to the fewest pages that make a block fit, or to failure when the break cannot move; a heap just initialised loses its block exactly if it can grow |
| Allocator.Heap.SearchOrGrow | FOS_PROJECT_2024_TEMPLATE/lib/dynamic_allocator.c:190-245 | Scan, growth and retry together, on well formed, just initialised and cracked heaps, with the exact condition under which the block is lost |
| Allocator.Heap.AllocBlockFF | FOS_PROJECT_2024_TEMPLATE/lib/dynamic_allocator.c:161-246 | First fit with grow and retry, for all sizes whose sums stay below 2^32 and from every heap, the uninitialised one and one that lost its first block included. The first free block with room for the size and 8 bytes of tags is cut for the least even piece, at least 16, that holds them, after the fewest pages that make such a block; 0 only if there is no such block and the break cannot move. Allocated payloads do not change. It goes wild exactly if the very first sbrk fails. A heap just initialised that can grow is well formed afterwards if and only if the request and its tags fit its one block; otherwise that block is lost, and it stays lost through every later request |
| Allocator.LoseBlock | FOS_PROJECT_2024_TEMPLATE/lib/dynamic_allocator.c:161-246 | A concrete run: a heap is initialised and asked for more than it has, and ends with no list that matches it |
| Allocator.TakePage | FOS_PROJECT_2024_TEMPLATE/lib/dynamic_allocator.c:161-246 | A request for a whole page on a fresh heap of one page takes the page behind it and loses the first block |
| Allocator.TakeMore | FOS_PROJECT_2024_TEMPLATE/lib/dynamic_allocator.c:161-246 | A second request, for 5000 bytes, takes two more pages and leaves a listed rest |
| Allocator.Heap.FindBestFit | FOS_PROJECT_2024_TEMPLATE/lib/dynamic_allocator.c:257-267 | Finds the first among the smallest blocks that fit, or 0 exactly if none fits |
| Allocator.Heap.AllocBlockBF | FOS_PROJECT_2024_TEMPLATE/lib/dynamic_allocator.c:251-287 | Allocates the first of the smallest listed free blocks with room for the size and 8 bytes, cut for exactly that many, on heaps that lost their first block too; 0 exactly for size 0 or if none has room, and then nothing changes. It goes wild exactly for sizes from 1 to 7 that leave a rest. Otherwise the heap is as well formed as it was if and only if the size is even or no rest is cut off, and else well formed for no layout. Allocated payloads stay as they were in every case |
| Allocator.Heap.CutSmall | FOS_PROJECT_2024_TEMPLATE/lib/dynamic_allocator.c:276-281 | For sizes from 1 to 7 that leave a rest the new tags overwrite a link of the block itself, with a number that is not NULL and below 2^28 |
| Allocator.Heap.InsertInOrder | FOS_PROJECT_2024_TEMPLATE/lib/dynamic_allocator.c:381-424 | The freed block is linked at its place in address order; if last was NULL although the list goes on it becomes the first, and last stays NULL |
| Allocator.Heap.ReadNeighbours | FOS_PROJECT_2024_TEMPLATE/lib/dynamic_allocator.c:329-343 | The size of the block and the payload addresses of both neighbours, as header, footer below and header above give them |
| Allocator.Heap.TakePrevious | FOS_PROJECT_2024_TEMPLATE/lib/dynamic_allocator.c:351-365 | A free block before the one being freed leaves the list; if it was lost, its NULL links empty both head fields |
| Allocator.Heap.TakeNext | FOS_PROJECT_2024_TEMPLATE/lib/dynamic_allocator.c:368-376 | A free block behind it leaves what the list is then |
| Allocator.Heap.Coalesce | FOS_PROJECT_2024_TEMPLATE/lib/dynamic_allocator.c:329-376 | Free neighbours leave the list, the lost block included, and their sizes are added; the address of the merged block is that of the lowest of the run |
| Allocator.Heap.MergeAndInsert | FOS_PROJECT_2024_TEMPLATE/lib/dynamic_allocator.c:329-424 | The layout becomes the released one and only bytes of free blocks change; the list is in address order, unless the lost block was merged |
| Allocator.Heap.MendedFits | FOS_PROJECT_2024_TEMPLATE/lib/dynamic_allocator.c:351-424 | If other blocks are free when the lost one is merged, no sequence at all matches both the list fields and the links afterwards |
| Allocator.Heap.FreeIn | FOS_PROJECT_2024_TEMPLATE/lib/dynamic_allocator.c:311-424 | The whole of free_block behind its checks, with or without a lost block |
| Allocator.Heap.Mends | FOS_PROJECT_2024_TEMPLATE/lib/dynamic_allocator.c:351-424 | Merging the lost block ends well formed if and only if no block from index 3 on is free |
| Allocator.Heap.FreeBlock | FOS_PROJECT_2024_TEMPLATE/lib/dynamic_allocator.c:292-425 | NULL and an already free block change nothing; otherwise the block is released and merged in the layout. A well formed or just initialised heap is well formed afterwards. On a heap that lost its first block freeing any block but the second keeps it so; freeing the second is well formed afterwards if and only if no block from index 3 on is free, and otherwise no list matches the heap |
| Allocator.RepairBlock | FOS_PROJECT_2024_TEMPLATE/lib/dynamic_allocator.c:161-425 | A concrete run in which a heap loses its first block and gets it back: it ends well formed with one free block of 8184 bytes |
| Allocator.SpoilHeap | FOS_PROJECT_2024_TEMPLATE/lib/dynamic_allocator.c:161-425 | A concrete run in which freeing the block behind the lost one leaves no list that matches |
| Allocator.Heap.AllocThenFree | FOS_PROJECT_2024_TEMPLATE/lib/dynamic_allocator.c:161-425 | First fit followed by free restores the layout if some free block has room for the request and its tags; otherwise it adds one free tail, of the fewest pages that make such a block, or of all that the break can move by when not even they do, and then the answer was 0. Payloads of allocated blocks are byte for byte what they were |
| Allocator.Heap.Sbrk | FOS_PROJECT_2024_TEMPLATE/lib/dynamic_allocator.c:222-225 | The assumed contract: old break or -1, growth by whole pages, a new END word |
| SchedState.TakeOut | FOS_PROJECT_2024_TEMPLATE/kern/cpu/sched_helpers.c:166-219 | Taking an environment out of its one place keeps everybody else in exactly one place, named by status and priority |
| SchedState.PutIn | FOS_PROJECT_2024_TEMPLATE/kern/cpu/sched_helpers.c:129-233 | Putting an environment in transit into the place its fields name restores one place for everybody |
| SchedState.Schedule | FOS_PROJECT_2024_TEMPLATE/kern/cpu/sched.c:370-400 | Preemption and dispatch keep every live environment in exactly one place that its status names |
| SchedState.RunEnv | FOS_PROJECT_2024_TEMPLATE/kern/cpu/sched_helpers.c:276-304 | The same for starting a new environment; who moves where is RunMoves |
| SchedState.RunAll | FOS_PROJECT_2024_TEMPLATE/kern/cpu/sched_helpers.c:531-555 | The same for starting all new environments |
| SchedState.Sleep | FOS_PROJECT_2024_TEMPLATE/kern/conc/channel.c:29-51 | The same for blocking on a channel; which channel, and what moves, is SleepEffect |
| SchedState.WakeOne | FOS_PROJECT_2024_TEMPLATE/kern/conc/channel.c:60-73 | The same for waking one |
| SchedState.WakeAll | FOS_PROJECT_2024_TEMPLATE/kern/conc/channel.c:83-96 | The same for waking all |
| SchedState.SetPriority | FOS_PROJECT_2024_TEMPLATE/kern/cpu/sched_helpers.c:705-739 | The same for a new priority |
| SchedState.ExitEnv | FOS_PROJECT_2024_TEMPLATE/kern/cpu/sched_helpers.c:309-382 | The same for exit from a ready queue or the CPU |
| SchedState.KillEnv | FOS_PROJECT_2024_TEMPLATE/kern/cpu/sched_helpers.c:389-475 | The same for kill, after which the environment is nowhere |
| SchedState.NewEnv | FOS_PROJECT_2024_TEMPLATE/kern/cpu/sched_helpers.c:258-270 | The same for creation; which record and which queue is NewMoves |
| SchedState.Tick | FOS_PROJECT_2024_TEMPLATE/kern/cpu/sched.c:406-469 | The same for a clock interrupt: promotion pass, count, preemption |
| SchedState.PromoteListEffect | FOS_PROJECT_2024_TEMPLATE/kern/cpu/sched.c:422-446 | The loop over one queue raises exactly the starved environments of that queue, behind those already there, and touches no third queue |
| SchedState.PromoteFromEffect | FOS_PROJECT_2024_TEMPLATE/kern/cpu/sched.c:422-446 | With a threshold of at least 1, the loop over the queues raises each starved environment once, by one level |
| SchedState.PassRaisesTheStarved | FOS_PROJECT_2024_TEMPLATE/kern/cpu/sched.c:422-446 | The whole pass changes exactly the starved, each by one level with its waiting time restarted |
| SchedState.PassWithoutThreshold | FOS_PROJECT_2024_TEMPLATE/kern/cpu/sched.c:422-446 | With threshold 0 the pass takes every waiting environment to priority 0 in one tick |
| SchedState.PassTimely | FOS_PROJECT_2024_TEMPLATE/kern/cpu/sched.c:422-446 | The pass leaves nobody waiting since a tick that has not come |
| SchedState.OneLevelExactly | FOS_PROJECT_2024_TEMPLATE/kern/cpu/sched.c:422-446 | The pass raises by exactly one level if and only if the threshold is at least 1 or nobody waits below level 1 |
| SchedMoves.WakeAllOrder | FOS_PROJECT_2024_TEMPLATE/kern/conc/channel.c:83-96 | The woken queue up behind everybody of their own priority, longest sleeper first; the channel is empty, nobody else moves |
| SchedMoves.SleepEffect | FOS_PROJECT_2024_TEMPLATE/kern/conc/channel.c:29-51 | Exactly the running environment goes to the back of the channel it was given, blocked; the CPU is idle, and nobody else moves or changes |
| SchedMoves.SleepThenWake | FOS_PROJECT_2024_TEMPLATE/kern/conc/channel.c:29-73 | Asleep on an empty channel it is what the next wake-up of that channel readies, at its own priority, and nothing else changes |
| SchedMoves.SleepsThrough | FOS_PROJECT_2024_TEMPLATE/kern/conc/channel.c:29-73 | A wake-up of any other channel leaves it asleep |
| SchedMoves.WakeOneEffect | FOS_PROJECT_2024_TEMPLATE/kern/conc/channel.c:60-73 | Exactly the longest sleeper becomes ready |
| SchedMoves.RunAllOrder | FOS_PROJECT_2024_TEMPLATE/kern/cpu/sched_helpers.c:531-555 | All new environments queue up behind those waiting, oldest first within each priority |
| SchedMoves.RunMoves | FOS_PROJECT_2024_TEMPLATE/kern/cpu/sched_helpers.c:276-304 | For every environment: only a new one is started; it goes to the back of the ready queue of its priority, waiting since now, and nobody else moves |
| SchedMoves.NewMoves | FOS_PROJECT_2024_TEMPLATE/kern/cpu/sched_helpers.c:258-270 | A created environment is new with the priority asked for, and goes to the back of the new queue; nobody else moves |
| SchedMoves.KillReaches | FOS_PROJECT_2024_TEMPLATE/kern/cpu/sched_helpers.c:389-475 | Kill removes an environment if and only if it does not sleep on a channel; every queue keeps its order without it, and no other record changes |
| SchedMoves.ExitReaches | FOS_PROJECT_2024_TEMPLATE/kern/cpu/sched_helpers.c:309-382 | Exit moves exactly the waiting and the running to the exit queue; others keep place, order and record |
| SchedMoves.PriorityMoves | FOS_PROJECT_2024_TEMPLATE/kern/cpu/sched_helpers.c:705-739 | A waiting environment goes to the back of its new queue and its waiting restarts; any other only changes its field |
| SchedMoves.DispatchIsBest | FOS_PROJECT_2024_TEMPLATE/kern/cpu/sched.c:381-400 | The dispatched environment has waited longest at the best priority; the CPU stays idle exactly if nobody waits |
| SchedMoves.DispatchMoves | FOS_PROJECT_2024_TEMPLATE/kern/cpu/sched.c:381-400 | The dispatched one leaves its queue for the CPU as the running one; nobody else moves |
| SchedMoves.RoundRobin | FOS_PROJECT_2024_TEMPLATE/kern/cpu/sched.c:370-400 | A preempted environment goes on if and only if everybody that waits has a strictly worse priority |
| BoundedWaiting.Next | FOS_PROJECT_2024_TEMPLATE/kern/cpu/sched.c:54-142 | Every step of a run keeps the place invariant |
| BoundedWaiting.NextTimely | FOS_PROJECT_2024_TEMPLATE/kern/cpu/sched.c:54-142 | Every step keeps it true that whoever waits began to wait at a tick that has come, which the two statements about threshold 0 start from |
| BoundedWaiting.CalmStep | FOS_PROJECT_2024_TEMPLATE/kern/cpu/sched_helpers.c:129-475 | Between ticks, whatever the others do, nobody overtakes a waiting environment at priority 0 and its record stays |
| BoundedWaiting.TickEffect | FOS_PROJECT_2024_TEMPLATE/kern/cpu/sched.c:406-469 | At a tick a starved environment rises a level; one at priority 0 gets closer to the CPU |
| BoundedWaiting.TickRank | FOS_PROJECT_2024_TEMPLATE/kern/cpu/sched.c:406-469 | Every tick that leaves an environment waiting lowers its rank |
| BoundedWaiting.RunRank | FOS_PROJECT_2024_TEMPLATE/kern/cpu/sched.c:370-447 | Over any run the ticks an environment waits are at most its rank |
| BoundedWaiting.BoundedWaiting | FOS_PROJECT_2024_TEMPLATE/kern/cpu/sched.c:370-447 | With threshold T of at least 1 and at most n live environments, one that just entered queue p and keeps waiting has seen fewer than p*T + n ticks, in every run |
| BoundedWaiting.Perform | FOS_PROJECT_2024_TEMPLATE/kern/cpu/sched.c:54-142 | Each step of such a run is one call of the operations on the queues in memory, and none of these calls panics, so the bound is one on the code |
| Scheduler.ProcessQueues.constructor | FOS_PROJECT_2024_TEMPLATE/kern/cpu/sched.c:246-296 | All queues empty, threshold set, invariant holds, nobody waits since a future tick |
| Scheduler.ProcessQueues.FindInQueue | FOS_PROJECT_2024_TEMPLATE/kern/cpu/sched_helpers.c:89-102 | Finds exactly the members, and leaves the iteration pointer of that queue behind the found one, or NULL |
| Scheduler.ProcessQueues.InsertReady | FOS_PROJECT_2024_TEMPLATE/kern/cpu/sched_helpers.c:147-161 | Refines the insertion at the queue of the priority |
| Scheduler.ProcessQueues.RemoveReady | FOS_PROJECT_2024_TEMPLATE/kern/cpu/sched_helpers.c:166-186 | Refines the removal, and says where it leaves the shared iteration pointers |
| Scheduler.ProcessQueues.Visit | FOS_PROJECT_2024_TEMPLATE/kern/cpu/sched.c:428-444 | One loop body refines one promotion and leaves the pointer of its own queue intact although the search re-enters the iteration |
| Scheduler.ProcessQueues.PromoteLevel | FOS_PROJECT_2024_TEMPLATE/kern/cpu/sched.c:424-446 | The loop visits every environment that was in the queue, once, although it removes some while iterating |
| Scheduler.ProcessQueues.PromotionPass | FOS_PROJECT_2024_TEMPLATE/kern/cpu/sched.c:422-446 | Refines the pass over all levels |
| Scheduler.ProcessQueues.Schedule | FOS_PROJECT_2024_TEMPLATE/kern/cpu/sched.c:54-142 | Refines preemption and dispatch |
| Scheduler.ProcessQueues.ClockInterrupt | FOS_PROJECT_2024_TEMPLATE/kern/cpu/sched.c:406-469 | Refines the tick |
| Scheduler.ProcessQueues.NewEnvironment | FOS_PROJECT_2024_TEMPLATE/kern/cpu/sched_helpers.c:258-270 | Refines NewEnv |
| Scheduler.ProcessQueues.RunEnvironment | FOS_PROJECT_2024_TEMPLATE/kern/cpu/sched_helpers.c:276-304 | Refines RunEnv |
| Scheduler.ProcessQueues.RunAllEnvironments | FOS_PROJECT_2024_TEMPLATE/kern/cpu/sched_helpers.c:531-555 | The draining loop refines RunAll; after it the call panics exactly if the scheduler is already started |
| Scheduler.ProcessQueues.SleepOn | FOS_PROJECT_2024_TEMPLATE/kern/conc/channel.c:29-51 | Refines Sleep, for the channel given |
| Scheduler.ProcessQueues.WakeupOne | FOS_PROJECT_2024_TEMPLATE/kern/conc/channel.c:60-73 | Refines WakeOne |
| Scheduler.ProcessQueues.WakeupAll | FOS_PROJECT_2024_TEMPLATE/kern/conc/channel.c:83-96 | The draining loop refines WakeAll and ends with an empty channel |
| Scheduler.ProcessQueues.SetPriorityOf | FOS_PROJECT_2024_TEMPLATE/kern/cpu/sched_helpers.c:705-739 | Refines SetPriority |
| Scheduler.ProcessQueues.ExitEnvironment | FOS_PROJECT_2024_TEMPLATE/kern/cpu/sched_helpers.c:309-382 | Panics exactly on an idle CPU; otherwise refines ExitEnv |
| Scheduler.ProcessQueues.KillEnvironment | FOS_PROJECT_2024_TEMPLATE/kern/cpu/sched_helpers.c:389-475 | Panics exactly if it is to kill a sleeper while the CPU is idle, and refines KillEnv |
| Scheduler.ProcessQueues.TakeFromReady | FOS_PROJECT_2024_TEMPLATE/kern/cpu/sched_helpers.c:331-350 | The search over the ready queues takes the environment off its queue exactly if it waits |
| SleepLock.InvInit | FOS_PROJECT_2024_TEMPLATE/kern/conc/sleeplock.c:15-22 | The initial state satisfies the invariant |
| SleepLock.InvStep | FOS_PROJECT_2024_TEMPLATE/kern/conc/sleeplock.c:23-69 | Every atomic step of guard, channel and lock, by any process, keeps: at most one holder, and locked and pid describe it but for an update in progress |
| SleepLock.InvRun | FOS_PROJECT_2024_TEMPLATE/kern/conc/sleeplock.c:23-69 | So does every run |
| SleepLock.MutualExclusion | FOS_PROJECT_2024_TEMPLATE/kern/conc/sleeplock.c:33-69 | In every run of any number of processes at most one is inside, and while the guard is free locked and pid name exactly the holder |
| SleepLock.HoldingIsTruthful | FOS_PROJECT_2024_TEMPLATE/kern/conc/sleeplock.c:23-30 | The query answers yes exactly for the process that is inside |
| SleepLock.StaysOn | FOS_PROJECT_2024_TEMPLATE/kern/conc/sleeplock.c:33-69 | Whatever step is made by whomever: who is inside acquire_sleeplock stays there until it holds the lock, and who is inside release_sleeplock until it is outside |
| SleepLock.OutOnlyAfterIn | FOS_PROJECT_2024_TEMPLATE/kern/conc/sleeplock.c:33-54 | In every run: a process that called acquire_sleeplock is outside again only after a moment at which it held the lock, locked and pid saying so |
| SleepLock.DrainKeepsIff | FOS_PROJECT_2024_TEMPLATE/kern/conc/channel.c:29-51 | Exact condition of one emptying of the channel: afterwards everybody who sleeps or is about to has somebody left to wake it if and only if nobody stands between dropping the guard and taking the queue lock |
| SleepLock.WatchedStep | FOS_PROJECT_2024_TEMPLATE/kern/conc/sleeplock.c:33-69 | Every other step keeps that, and so does an emptying for which nobody is late |
| SleepLock.WakeupsKept | FOS_PROJECT_2024_TEMPLATE/kern/conc/sleeplock.c:33-69 | In every run in which nobody is late for an emptying, nobody is ever left asleep on a free lock |
| SleepLock.LateIsLost | FOS_PROJECT_2024_TEMPLATE/kern/conc/channel.c:29-51 | And from every state in which somebody is late there is a run on which it falls asleep on a free lock, with everybody who slept before awake |
| SleepLock.LostWakeup | FOS_PROJECT_2024_TEMPLATE/kern/conc/channel.c:29-51 | For any two processes such a run exists from the initial state |
| SleepLock.SleepsUntilAcquired | FOS_PROJECT_2024_TEMPLATE/kern/conc/channel.c:29-51 | The lost process sleeps through every run in which nobody acquires the lock, however often it is queried |
| SleepLock.NextUserWakes | FOS_PROJECT_2024_TEMPLATE/kern/conc/channel.c:83-96 | And whoever acquires and releases the lock next wakes it, and leaves lock, guard and queue lock free |
| SleepLock.WokenTests | FOS_PROJECT_2024_TEMPLATE/kern/conc/channel.c:46-51 | A woken process takes the guard again and looks at the lock again |
| SleepLock.WokenTakes | FOS_PROJECT_2024_TEMPLATE/kern/conc/sleeplock.c:42-54 | If the lock is free then, it takes it before it returns, and locked and pid say so |
| SleepLock.WokenSleepsAgain | FOS_PROJECT_2024_TEMPLATE/kern/conc/sleeplock.c:42-46 | If not, it queues up on the channel again |
| SleepLock.LostTakesAfterAll | FOS_PROJECT_2024_TEMPLATE/kern/conc/sleeplock.c:33-69 | So the lost process gets the lock after all, once somebody has acquired and released it |
| Reservation.CustWaitOk | FOS_PROJECT_2024_TEMPLATE/lib/semaphore.c:38-56 | A customer wait keeps every count equal to what the waits and signals so far add up to, negative by the number of the blocked |
| Reservation.ClerkWaitOk | FOS_PROJECT_2024_TEMPLATE/lib/semaphore.c:38-56 | The same for a clerk wait |
| Reservation.CustSignalOk | FOS_PROJECT_2024_TEMPLATE/lib/semaphore.c:62-79 | The same for a customer signal, which may wake any blocked process |
| Reservation.ClerkSignalOk | FOS_PROJECT_2024_TEMPLATE/lib/semaphore.c:62-79 | The same for a clerk signal |
| Reservation.CustLocalOk | FOS_PROJECT_2024_TEMPLATE/user/tst_air_customer.c:54-72 | The same for the steps inside critical sections of a customer |
| Reservation.ClerkLocalOk | FOS_PROJECT_2024_TEMPLATE/user/tst_air_clerk.c:66-150 | The same for those of a clerk |
| Reservation.MasterOk | FOS_PROJECT_2024_TEMPLATE/user/tst_air.c:157-161 | The same for the waits of the master |
| ReservationBoard.ReadOk | FOS_PROJECT_2024_TEMPLATE/user/tst_air_customer.c:54-60 | Taking a customer id keeps ids distinct |
| ReservationBoard.StoreOk | FOS_PROJECT_2024_TEMPLATE/user/tst_air_customer.c:66-72 | Writing the queue slot keeps written slots intact |
| ReservationBoard.AdvanceOk | FOS_PROJECT_2024_TEMPLATE/user/tst_air_customer.c:66-72 | Advancing the in index keeps each customer in the queue at most once |
| ReservationBoard.DequeueOk | FOS_PROJECT_2024_TEMPLATE/user/tst_air_clerk.c:66-73 | Advancing the out index hands the customer just read to this clerk only |
| ReservationBoard.FinishOk | FOS_PROJECT_2024_TEMPLATE/user/tst_air_clerk.c:152-159 | A finish signal concerns a customer not finished before |
| ReservationBoard.AcceptOk | FOS_PROJECT_2024_TEMPLATE/user/tst_air_clerk.c:79-150 | A clerk that found a ticket on each wanted flight still finds it when it books |
| ReservationBoard.DenyOk | FOS_PROJECT_2024_TEMPLATE/user/tst_air_clerk.c:79-150 | A denied customer wanted a flight that is sold out and is on no flight |
| ReservationBoard.Book1Ok | FOS_PROJECT_2024_TEMPLATE/user/tst_air_clerk.c:82-143 | Booking flight 1 conserves tickets plus bookings and books nobody twice |
| ReservationBoard.Book2Ok | FOS_PROJECT_2024_TEMPLATE/user/tst_air_clerk.c:102-143 | The same for flight 2, with both flights booked when both are wanted |
| ReservationBoard.MoveOk | FOS_PROJECT_2024_TEMPLATE/user/tst_air_clerk.c:60-163 | Every move of customers and clerks keeps all of the queue, service, ticket and booking invariants |
| ReservationSafety.Exclusive | FOS_PROJECT_2024_TEMPLATE/user/tst_air_clerk.c:60-163 | No two processes are inside the same critical section |
| ReservationSafety.Bounds | FOS_PROJECT_2024_TEMPLATE/user/tst_air_customer.c:53-97 | Ids and queue positions stay within the arrays, strictly while somebody still has to take one |
| ReservationSafety.SlotReady | FOS_PROJECT_2024_TEMPLATE/user/tst_air_clerk.c:63-73 | A clerk about to dequeue finds a slot already written |
| ReservationSafety.CustCan | FOS_PROJECT_2024_TEMPLATE/user/tst_air_customer.c:53-97 | The semaphores enforce what each move of a customer needs |
| ReservationSafety.ClerkCan | FOS_PROJECT_2024_TEMPLATE/user/tst_air_clerk.c:60-163 | And of a clerk |
| ReservationSafety.CustStepView | FOS_PROJECT_2024_TEMPLATE/user/tst_air_customer.c:53-97 | Each program step of a customer is one move on the shared data, or none |
| ReservationSafety.ClerkStepView | FOS_PROJECT_2024_TEMPLATE/user/tst_air_clerk.c:60-163 | The same for a clerk |
| ReservationSafety.InvStep | FOS_PROJECT_2024_TEMPLATE/user/tst_air_clerk.c:60-163 | Every step of every process keeps the whole invariant |
| ReservationEnd.InitialInv | FOS_PROJECT_2024_TEMPLATE/user/tst_air.c:16-129 | The state set up by the master satisfies it |
| ReservationEnd.RunInv | FOS_PROJECT_2024_TEMPLATE/user/tst_air_clerk.c:60-163 | Every reachable state satisfies it, and the problem data never change |
| ReservationEnd.StepWork | FOS_PROJECT_2024_TEMPLATE/user/tst_air_clerk.c:60-163 | Every step does some of a bounded amount of work |
| ReservationEnd.RunsEnd | FOS_PROJECT_2024_TEMPLATE/user/tst_air.c:157-161 | Every run of N customers and C clerks has at most 57 N + 29 C steps |
| ReservationEnd.CanWake | FOS_PROJECT_2024_TEMPLATE/lib/semaphore.c:62-79 | A signal can always be made: whenever the count says somebody is blocked, somebody is |
| ReservationEnd.Rest | FOS_PROJECT_2024_TEMPLATE/user/tst_air.c:157-161 | With no step enabled all clerks stand at the ready semaphore, all mutexes are 1, and each customer is done or waits for a clerk or for its finish |
| ReservationEnd.QueueEmpty | FOS_PROJECT_2024_TEMPLATE/user/tst_air.c:177-227 | And the queue has been emptied and the ready count is -C |
| ReservationEnd.FinishedCount | FOS_PROJECT_2024_TEMPLATE/user/tst_air_customer.c:77-84 | A customer served has received its finish signal |
| ReservationEnd.AllDone | FOS_PROJECT_2024_TEMPLATE/user/tst_air.c:157-161 | And every customer has terminated, if there is a clerk |
| ReservationEnd.QuiescentIsEnd | FOS_PROJECT_2024_TEMPLATE/user/tst_air.c:177-227 | So every state with no enabled step is the end the master checks: everybody served, clerk count C, ready count -C, mutexes 1, all other counts 0 |
| ReservationEnd.EveryRunSafe | FOS_PROJECT_2024_TEMPLATE/user/tst_air_clerk.c:60-163 | In every run, for any N, C and tickets: tickets left plus bookings constant per flight, nobody booked or served twice, nobody on flight 1 but customers of types 1 and 3, nobody on flight 2 but those of types 2 and 3, nobody of type 3 finished on one flight only, no unwritten slot read, no array overrun |
| ReservationEnd.RunAdds | FOS_PROJECT_2024_TEMPLATE/user/tst_air_clerk.c:79-159 | In every run the lists of bookings, the finished, the denied and the completed only grow |
| ReservationEnd.EveryRunServes | FOS_PROJECT_2024_TEMPLATE/user/tst_air.c:157-227 | Every run that cannot go on has served everybody |
| ReservationEnd.NobodyDenied | FOS_PROJECT_2024_TEMPLATE/user/tst_air_clerk.c:79-150 | With tickets for all that want one nobody is denied |
| ReservationEnd.BookedOnAll | FOS_PROJECT_2024_TEMPLATE/user/tst_air_clerk.c:79-150 | Where nobody was denied a finished customer of type 1 is on flight 1, of type 2 on flight 2, and of type 3 on both |
| ReservationEnd.BookedIffEnough | FOS_PROJECT_2024_TEMPLATE/user/tst_air.c:163-227 | At the end everybody of type 1 is on flight 1, of type 2 on flight 2, and of type 3 on both, if and only if there were tickets on flight 1 for all of types 1 and 3 and on flight 2 for all of types 2 and 3, in whatever order they came |
| ReservationEnd.MasterPasses | FOS_PROJECT_2024_TEMPLATE/user/tst_air.c:16-227 | The master as it is, with 15 customers of the three types, 3 clerks, 8 and 15 tickets: no interleaving makes any of its checks fail |
| PageTables.PutNaming | FOS_Assignment_Template/kern/memory_manager.c:426-451 | Writing one entry changes the number of entries naming a frame by exactly the old and the new name |
| PageTables.OwnTable | FOS_Assignment_Template/kern/memory_manager.c:372-407 | No two directory entries share a page table |
| PageTables.FreeUnnamed | FOS_Assignment_Template/kern/memory_manager.c:324-334 | A frame on the free list is named by no entry |
| PageTables.ClearOk | FOS_Assignment_Template/kern/memory_manager.c:492-503 | Clearing an entry, counting down and returning the frame at 0 keeps counts, tables and free list consistent |
| PageTables.SetOk | FOS_Assignment_Template/kern/memory_manager.c:426-451 | So does filling an empty entry and counting up |
| PageTables.LookPut | FOS_Assignment_Template/kern/memory_manager.c:426-503 | Writing a page table entry changes exactly one page of one directory |
| PageTables.AddTableOk | FOS_Assignment_Template/kern/memory_manager.c:372-407 | Adding a zeroed page table keeps everything consistent and changes no translation |
| PageTables.EntryParts | FOS_Assignment_Template/kern/helpers.c:130-141 | An entry is the frame times 4096 plus the permissions with the present bit set, and gives both back |
| Paging.TranslationIsFlat | FOS_Assignment_Template/kern/helpers.c:130-141 | The two-level walk answers the word of the page with its low 12 bits cleared, or -1 without one; a mapped page is never on a free or page table frame |
| Paging.MapTwice | FOS_Assignment_Template/kern/memory_manager.c:426-451 | Two calls, whatever the permissions: a page mapped to a frame and mapped again to the same frame keeps the permissions of the first call |
| Paging.UnmapOk | FOS_Assignment_Template/kern/memory_manager.c:492-503 | Unmapping one page keeps everything consistent, and the frame is freed exactly if no entry names it any more |
| Paging.MemoryManager.MarkFrames | FOS_Assignment_Template/kern/memory_manager.c:253-298 | The free list holds exactly the frames not in use at boot, in the order the code builds it |
| Paging.MemoryManager.MarkFree | FOS_Assignment_Template/kern/memory_manager.c:264-296 | The frames of a range are counted 0 and put in front of the list, last first, and nothing else changes |
| Paging.MemoryManager.MarkUsed | FOS_Assignment_Template/kern/memory_manager.c:253-290 | The frames of a range are counted 1, and nothing else changes |
| Paging.MemoryManager.InitializePaging | FOS_Assignment_Template/kern/memory_manager.c:253-298 | Free with count 0 are exactly the frames from 1 to 159 and those behind the kernel, in the order the code lists them; all others are in use with count 1, and the invariant holds |
| Paging.MemoryManager.AllocateFrame | FOS_Assignment_Template/kern/memory_manager.c:324-334 | Takes the first free frame, or E_NO_MEM exactly if there is none |
| Paging.MemoryManager.FreeFrame | FOS_Assignment_Template/kern/memory_manager.c:340-344 | Puts the frame first |
| Paging.MemoryManager.DecrementReferences | FOS_Assignment_Template/kern/memory_manager.c:350-354 | Counts down and returns the frame exactly at 0 |
| Paging.MemoryManager.GetPageTable | FOS_Assignment_Template/kern/memory_manager.c:372-407 | Finds or creates the table; on E_NO_MEM or without create nothing changes; translations never change |
| Paging.MemoryManager.GetFrameInfo | FOS_Assignment_Template/kern/memory_manager.c:463-476 | Answers the mapped frame and its table and changes nothing |
| Paging.MemoryManager.UnmapFrame | FOS_Assignment_Template/kern/memory_manager.c:492-503 | One page becomes unmapped, all others are unchanged, and its frame returns to the list exactly when its last entry goes |
| Paging.MemoryManager.EnterFrame | FOS_Assignment_Template/kern/memory_manager.c:444-450 | The entry is written and the frame counted, for one page only |
| Paging.MemoryManager.MapFrame | FOS_Assignment_Template/kern/memory_manager.c:426-451 | One page is mapped, all others are unchanged, the old frame is counted down; the page has the permissions asked for if and only if it was not already mapped to the same frame, or had them; E_NO_MEM exactly if a table is missing and no frame is free, and then nothing changes |
| PageCheck.StealFrames | FOS_Assignment_Template/kern/helpers.c:150-170 | Three different frames and the rest of the list are taken |
| PageCheck.MapTwo | FOS_Assignment_Template/kern/helpers.c:172-189 | After failing without memory, the freed frame becomes the page table; two pages are mapped with counts 1 |
| PageCheck.MapAgain | FOS_Assignment_Template/kern/helpers.c:191-214 | Mapping again counts nothing twice; a second page on one frame counts 2 |
| PageCheck.UnmapBoth | FOS_Assignment_Template/kern/helpers.c:216-234 | The frame stays until its second page is unmapped |
| PageCheck.ForcedOk | FOS_Assignment_Template/kern/helpers.c:236-240 | Taking the page table back by force keeps the invariant, once no page is mapped through it |
| PageCheck.GiveBack | FOS_Assignment_Template/kern/helpers.c:236-248 | All frames return |
| PageCheck.PageCheck | FOS_Assignment_Template/kern/helpers.c:150-251 | The whole scenario passes its assertions from the contracts alone, and leaves counts and the set of free frames as before |
| PageFile.TakeOk | FOS_PROJECT_2024_TEMPLATE/kern/disk/pagefile_manager.c:112-133 | Giving a free disk frame to an empty slot keeps every frame free once or in exactly one slot |
| PageFile.GiveOk | FOS_PROJECT_2024_TEMPLATE/kern/disk/pagefile_manager.c:138-147 | Returning the frame of a slot keeps it too; frames are lost afterwards exactly if they were before |
| PageFile.WriteView | FOS_PROJECT_2024_TEMPLATE/kern/disk/pagefile_manager.c:239-268 | Writing the frame of one slot shows in no other slot |
| PageFile.SlotsApart | FOS_PROJECT_2024_TEMPLATE/kern/disk/pagefile_manager.c:149-207 | Two addresses share a slot exactly if they lie in the same page, and a slot of the table file exactly if in the same 4 MB |
| PageFile.FramesConserved | FOS_PROJECT_2024_TEMPLATE/kern/disk/pagefile_manager.c:603-618 | Free and used frames are at most all frames; equal to all exactly if none is lost |
| PageFile.Manager.constructor | FOS_PROJECT_2024_TEMPLATE/kern/disk/pagefile_manager.c:75-90 | Every frame from 1 on is free, last first, and no slot is in use |
| PageFile.Manager.AllocateDiskFrame | FOS_PROJECT_2024_TEMPLATE/kern/disk/pagefile_manager.c:112-133 | Takes the first frame, or fails exactly if there is none |
| PageFile.Manager.FreeDiskFrame | FOS_PROJECT_2024_TEMPLATE/kern/disk/pagefile_manager.c:138-147 | Puts the frame first; frame 0 is ignored |
| PageFile.Manager.GetDiskPageDirectory | FOS_PROJECT_2024_TEMPLATE/kern/disk/pagefile_manager.c:525-560 | Creates an empty directory only if there is none |
| PageFile.Manager.GetDiskPageTable | FOS_PROJECT_2024_TEMPLATE/kern/disk/pagefile_manager.c:149-207 | Finds the table, creating an empty one only if asked and missing; goes wild exactly without a page directory |
| PageFile.Manager.FrameFor | FOS_PROJECT_2024_TEMPLATE/kern/disk/pagefile_manager.c:209-268 | The slot keeps its frame or gets the first free one; no other slot changes |
| PageFile.Manager.PfAddEnvPage | FOS_PROJECT_2024_TEMPLATE/kern/disk/pagefile_manager.c:239-268 | As a map from slot to contents: the slot now holds the data, all others are unchanged; no space exactly if the slot was empty and no frame free, and then nothing changes |
| PageFile.Manager.PfAddEmptyEnvPage | FOS_PROJECT_2024_TEMPLATE/kern/disk/pagefile_manager.c:209-237 | The slot holds zeros if asked; otherwise a new slot shows what its disk frame last held |
| PageFile.Manager.PfReadEnvPage | FOS_PROJECT_2024_TEMPLATE/kern/disk/pagefile_manager.c:395-423 | Reads what the slot holds, or the error exactly if it is empty |
| PageFile.Manager.PfRemoveEnvPage | FOS_PROJECT_2024_TEMPLATE/kern/disk/pagefile_manager.c:425-442 | The slot becomes empty and its frame free; nothing else changes |
| PageFile.Manager.RemoveSlot | FOS_PROJECT_2024_TEMPLATE/kern/disk/pagefile_manager.c:425-442 | The same for any slot |
| PageFile.Manager.WriteEnvTable | FOS_PROJECT_2024_TEMPLATE/kern/disk/pagefile_manager.c:661-689 | As PfAddEnvPage for table slots |
| PageFile.Manager.ReadEnvTable | FOS_PROJECT_2024_TEMPLATE/kern/disk/pagefile_manager.c:691-702 | As PfReadEnvPage for table slots |
| PageFile.Manager.RemoveEnvTable | FOS_PROJECT_2024_TEMPLATE/kern/disk/pagefile_manager.c:721-730 | As PfRemoveEnvPage for table slots |
| PageFile.Manager.RemoveEnvAllTables | FOS_PROJECT_2024_TEMPLATE/kern/disk/pagefile_manager.c:704-719 | All table slots below USER_TOP become empty, their frames free, nothing else changes; without a table directory nothing changes at all |
| PageFile.Manager.FreePages | FOS_PROJECT_2024_TEMPLATE/kern/disk/pagefile_manager.c:448-488 | All page slots below USER_TOP become empty, their frames free, nothing else changes; wild exactly without a page directory |
| PageFile.Manager.PfFreeEnv | FOS_PROJECT_2024_TEMPLATE/kern/disk/pagefile_manager.c:444-522 | The environment has nothing left and no other is touched; the freed frames are exactly those of its slots below USER_TOP; no frame is lost if and only if it had none at or above USER_TOP. Wild exactly without a page directory, as on a second call, and then nothing has changed |
| PageFile.LostIff | FOS_PROJECT_2024_TEMPLATE/kern/disk/pagefile_manager.c:444-522 | That equivalence, from the frames alone |
| PageFile.LoseFrame | FOS_PROJECT_2024_TEMPLATE/kern/disk/pagefile_manager.c:444-522 | A concrete run that loses a frame: a page at USER_TOP |
| PageFile.Manager.CalculateAllocatedPages | FOS_PROJECT_2024_TEMPLATE/kern/disk/pagefile_manager.c:562-599 | Counts exactly the slots of the environment below USER_TOP in use; wild exactly without a page directory |
| PageFile.Manager.CalculateFreeFrames | FOS_PROJECT_2024_TEMPLATE/kern/disk/pagefile_manager.c:603-618 | Counts the free frames; with the frames in use they make all frames exactly if none is lost |
| StabSearch.StabBinsearch | FOS_Assignment_Template/kern/kdebug.c:59-103 | The loop terminates and computes the search, with its widening of the address by 4 after a match |
| StabSearch.SearchFrom | FOS_Assignment_Template/kern/kdebug.c:59-103 | From any stage of the loop the search ends at the bracketing region, unless a close successor of the match misleads it |
| StabSearch.FindsIff | FOS_Assignment_Template/kern/kdebug.c:59-103 | If entries of the type increase: left is the last entry of the type at or below the address and right just before the next one or the original end (or just before the first one, if all lie above), if and only if it is not the case that an exact match is followed within 4 and the probes reach the match while the follower is still in range; which they do depends on positions only |
| StabSearch.HitMisleads | FOS_Assignment_Template/kern/kdebug.c:84-97 | In that case the search ends at the follower |
| StabSearch.SearchFinds | FOS_Assignment_Template/kern/kdebug.c:59-103 | So the search finds the region whenever an exact match is followed at a distance of more than 4 |
| StabSearch.SearchNone | FOS_Assignment_Template/kern/kdebug.c:59-103 | Without an entry of the type the region is empty at the left end |
| StabSearch.EmptyRegion | FOS_Assignment_Template/kern/kdebug.c:59-103 | For any entries, increasing or not: the region is empty if and only if there is no entry of the type, also if the address lies below all of them |
| StabSearch.TooClose | FOS_Assignment_Template/kern/kdebug.c:93-97 | Counterexample: with an entry 4 behind the exact match the search moves past the match |
| Sorting.SortedUnique | FOS_PROJECT_2024_TEMPLATE/user/arrayOperations_Master.c:117-141 | Two sorted arrangements of the same elements are equal |
| Sorting.SortIs | FOS_PROJECT_2024_TEMPLATE/user/arrayOperations_Master.c:117-141 | Any sorted permutation is the reference sort |
| Sorting.SortSame | FOS_PROJECT_2024_TEMPLATE/user/arrayOperations_Master.c:117-141 | The reference sort depends on the elements only, not on their order |
| Sorting.InPlace | FOS_PROJECT_2024_TEMPLATE/user/arrayOperations_quicksort.c:64-90 | Around an element with smaller ones before and larger ones behind, sorting both sides sorts the whole |
| Sorting.SortRangeIs | FOS_PROJECT_2024_TEMPLATE/user/arrayOperations_quicksort.c:64-90 | A range permuted and sorted in place is the range sorted, the rest untouched |
| Sorting.PivotIn | FOS_PROJECT_2024_TEMPLATE/user/arrayOperations_stats.c:86-114 | The k-th smallest is the pivot or the corresponding one of a side |
| ArrayPrograms.Swap | FOS_PROJECT_2024_TEMPLATE/user/arrayOperations_quicksort.c:95-100 | Exchanges two elements |
| ArrayPrograms.Partition | FOS_PROJECT_2024_TEMPLATE/user/arrayOperations_quicksort.c:64-86 | For any choice of the pivot: permutes the range around the pivot value |
| ArrayPrograms.SortedParts | FOS_PROJECT_2024_TEMPLATE/user/arrayOperations_quicksort.c:64-90 | Sorting the two sides of a partition sorts the range |
| ArrayPrograms.QSort | FOS_PROJECT_2024_TEMPLATE/user/arrayOperations_quicksort.c:64-90 | Sorts exactly the range, for any choices of the pivots |
| ArrayPrograms.QuickSort | FOS_PROJECT_2024_TEMPLATE/user/arrayOperations_quicksort.c:58-61 | Sorts the array |
| ArrayPrograms.PartitionStrictly | FOS_PROJECT_2024_TEMPLATE/user/arrayOperations_stats.c:86-106 | The partition of quickselect puts the pivot at its final place |
| ArrayPrograms.PivotPlace | FOS_PROJECT_2024_TEMPLATE/user/arrayOperations_stats.c:86-114 | Which side of the pivot holds the k-th smallest |
| ArrayPrograms.QSelect | FOS_PROJECT_2024_TEMPLATE/user/arrayOperations_stats.c:86-114 | The k-th smallest of the range, whatever the pivots; the range is permuted |
| ArrayPrograms.KthElement | FOS_PROJECT_2024_TEMPLATE/user/arrayOperations_stats.c:80-83 | The k-th smallest element |
| ArrayPrograms.SumMinMax | FOS_PROJECT_2024_TEMPLATE/user/arrayOperations_stats.c:116-135 | Sum, least and greatest element |
| ArrayPrograms.OneCounts | FOS_PROJECT_2024_TEMPLATE/user/arrayOperations_stats.c:116-144 | One element more adds itself to the sum and the square of its distance to the sum of squares |
| ArrayPrograms.SumSame | FOS_PROJECT_2024_TEMPLATE/user/arrayOperations_Master.c:196-213 | The sum does not depend on the order |
| ArrayPrograms.MeanBetween | FOS_PROJECT_2024_TEMPLATE/user/arrayOperations_stats.c:116-144 | The sum lies between the length times the least and times the greatest element, and the mean between the two |
| ArrayPrograms.SumSquares | FOS_PROJECT_2024_TEMPLATE/user/arrayOperations_stats.c:136-144 | Sum of squared distances from the mean |
| ArrayPrograms.SquaresSame | FOS_PROJECT_2024_TEMPLATE/user/arrayOperations_Master.c:196-213 | That sum does not depend on the order, so it can be compared after sorting |
| ArrayPrograms.SquaresPositive | FOS_PROJECT_2024_TEMPLATE/user/arrayOperations_stats.c:139-144 | It is never negative, and 0 exactly if all elements are the mean |
| ArrayPrograms.ArrayStats | FOS_PROJECT_2024_TEMPLATE/user/arrayOperations_stats.c:116-144 | Mean, variance, least, greatest and median of the array as given, although selection permutes it |
| ArrayPrograms.MergedOk | FOS_PROJECT_2024_TEMPLATE/user/arrayOperations_mergesort.c:109-159 | Merging sorted sequences is sorted and keeps the elements |
| ArrayPrograms.MergeInto | FOS_PROJECT_2024_TEMPLATE/user/arrayOperations_mergesort.c:109-159 | The loop writes the merge of the two buffers into the range |
| ArrayPrograms.Merge | FOS_PROJECT_2024_TEMPLATE/user/arrayOperations_mergesort.c:109-159 | Two sorted neighbouring ranges become one sorted range, the rest untouched |
| ArrayPrograms.MSort | FOS_PROJECT_2024_TEMPLATE/user/arrayOperations_mergesort.c:89-107 | Sorts exactly the range, given by 1-based bounds |
| ArrayPrograms.MergeSort | FOS_PROJECT_2024_TEMPLATE/user/arrayOperations_mergesort.c:89-107 | Sorts the array, hence agrees with QuickSort |
| ArrayPrograms.CheckSorted | FOS_PROJECT_2024_TEMPLATE/user/arrayOperations_Master.c:149-162 | True exactly if sorted |
| ArrayPrograms.Ends | FOS_PROJECT_2024_TEMPLATE/user/arrayOperations_Master.c:117-141 | Least and greatest are the ends of the sorted array |
| ArrayPrograms.MasterStats | FOS_PROJECT_2024_TEMPLATE/user/arrayOperations_Master.c:196-213 | Mean and variance of the unsorted array |
| ArrayPrograms.MasterChecks | FOS_PROJECT_2024_TEMPLATE/user/arrayOperations_Master.c:117-141 | For one element or more both sorts agree; the median that the master reads lies inside the array if and only if there are two elements or more, and then no comparison panics, whatever pivots were drawn |
| UserHeap.RoundingWraps | FOS_PROJECT_2024_TEMPLATE/lib/uheap.c:202-205 | 32-bit rounding up gives the number of pages needed if and only if the size is at most 2^32 - 4096; otherwise it gives 0 |
| UserHeap.LowestIffNoWrap | FOS_PROJECT_2024_TEMPLATE/lib/uheap.c:202-229 | The run found is the lowest one large enough for the request if and only if the rounding does not wrap |
| UserHeap.Taken | FOS_PROJECT_2024_TEMPLATE/lib/uheap.c:192-199 | Marking a run of unmarked pages keeps live allocations apart, on marked pages, with their sizes recorded |
| UserHeap.Given | FOS_PROJECT_2024_TEMPLATE/lib/uheap.c:54-85 | Unmarking one allocation keeps that |
| UserHeap.Released | FOS_PROJECT_2024_TEMPLATE/lib/uheap.c:54-85 | Unmarking any pages keeps the other allocations if and only if it touches none of theirs |
| UserHeap.Overwritten | FOS_PROJECT_2024_TEMPLATE/lib/uheap.c:222-224 | Overwriting one recorded size harms exactly an allocation that begins there with another size |
| UserHeap.TouchedIs | FOS_PROJECT_2024_TEMPLATE/lib/uheap.c:192-199 | The loops over user memory touch, from any offset in a page, exactly the pages of the size plus the offset |
| UserHeap.TouchedNone | FOS_PROJECT_2024_TEMPLATE/lib/uheap.c:192-199 | For size 0, and for a size whose rounding wraps, they touch nothing |
| UserHeap.TouchedInside | FOS_PROJECT_2024_TEMPLATE/lib/uheap.c:54-85 | What a size recorded for an allocation touches from inside its first page, and exactly when that meets another allocation |
| UserHeap.RunBytes | FOS_PROJECT_2024_TEMPLATE/lib/uheap.c:192-229 | The pages computed for a size are exactly those its bytes lie in |
| UserHeap.Heap.AllocateUserMem | FOS_PROJECT_2024_TEMPLATE/lib/uheap.c:192-199 | The loop marks exactly the pages from the address to the rounded end, with 32-bit sums |
| UserHeap.Heap.FreeUserMem | FOS_PROJECT_2024_TEMPLATE/lib/uheap.c:54-85 | The loop unmarks exactly those |
| UserHeap.Heap.GetConsecutivePages | FOS_PROJECT_2024_TEMPLATE/lib/uheap.c:202-229 | Returns the lowest long enough run of unmarked pages behind the break and inside the heap, and NULL exactly if there is none |
| UserHeap.Heap.AllocateInPageAllocator | FOS_PROJECT_2024_TEMPLATE/lib/uheap.c:192-199 | The run becomes marked and live, disjoint from everything before; NULL changes neither. For size 0 and for sizes whose rounding wraps it answers the first page and marks nothing; the heap stays in order if and only if no allocation begins there |
| UserHeap.Heap.AllocateBytes | FOS_PROJECT_2024_TEMPLATE/lib/uheap.c:192-229 | The same in bytes: the address is the lowest page aligned one behind the page that follows the break from which all pages that the size reaches into are unmarked and inside the heap, and NULL exactly if there is none |
| UserHeap.Heap.Free | FOS_PROJECT_2024_TEMPLATE/lib/uheap.c:54-85 | For every address: outside the heap nothing happens, below the break it is a block, a page without a recorded size panics; otherwise the pages its recorded size reaches are given up, and the heap stays in order if and only if no other allocation has one of them. A live allocation loses exactly its pages; from an address inside its first page the heap stays in order if and only if the size does not reach into another page or no allocation begins there |
| UserHeap.Heap.FreeTwice | FOS_PROJECT_2024_TEMPLATE/lib/uheap.c:54-85 | Freeing an allocation a second time panics and changes nothing |
| UserHeap.Heap.AllocateThenFree | FOS_PROJECT_2024_TEMPLATE/lib/uheap.c:54-229 | Allocating and freeing restores marked pages and live allocations |
| Numbers.Strtol | FOS_PROJECT_2024_TEMPLATE/lib/string.c:181-226 | The loops read what Parse specifies, whose law is StrtolReads |
| Numbers.StrtolReads | FOS_PROJECT_2024_TEMPLATE/lib/string.c:181-226 | All that strtol reads, in literals: blanks, a sign, the prefix that goes with the base, digits of either case with the values 0 to 35, up to the first character that is no digit. It answers their value in the base, negated for a minus sign, in 32 bits, and stops there |
| Numbers.StrtolReadsAll | FOS_PROJECT_2024_TEMPLATE/lib/string.c:181-226 | Every string is of that form, for base 0 and every base from 2 to 36, so the law covers all calls |
| Numbers.WrapIs | FOS_PROJECT_2024_TEMPLATE/lib/string.c:181-226 | In 32 bits means: the long that differs by a multiple of 2^32 |
| Numbers.UpperThenParse | FOS_PROJECT_2024_TEMPLATE/lib/string.c:205-222 | The upper-case digits of a number read back as the number, in any base from 2 to 36 |
| Numbers.PrintNum | FOS_PROJECT_2024_TEMPLATE/lib/printfmt.c:38-53 | The digits of the number in the base, padded in front to the width |
| Numbers.DigitsSpelled | FOS_PROJECT_2024_TEMPLATE/lib/printfmt.c:38-53 | The digits printed are 0 to 9 and lower-case a to f, worth the number, without leading zeros |
| Numbers.WriteDigits | FOS_PROJECT_2024_TEMPLATE/lib/string.c:228-268 | The loop writes the digits backwards |
| Numbers.ReverseBetween | FOS_PROJECT_2024_TEMPLATE/lib/string.c:228-268 | The in-place exchange reverses the digits |
| Numbers.Ltostr | FOS_PROJECT_2024_TEMPLATE/lib/string.c:228-268 | The buffer holds sign, digits and the terminator, and is unchanged behind it |
| Numbers.DigitsRead | FOS_PROJECT_2024_TEMPLATE/lib/string.c:181-226 | Reading the digits of a number gives the number, in any base from 2 to 16 |
| Numbers.PrintThenParse | FOS_PROJECT_2024_TEMPLATE/lib/printfmt.c:38-53 | Parsing what printnum printed gives the number, for bases 2 to 16 and any width of spaces or zeros, if and only if it fits a non-negative long |
| Numbers.NegativeDigit | FOS_PROJECT_2024_TEMPLATE/lib/string.c:228-268 | The leading digit character of a negative value lies below the digit 0 |
| Numbers.LeastParsesToZero | FOS_PROJECT_2024_TEMPLATE/lib/string.c:228-268 | The text of the least long parses to 0 |
| Numbers.TextThenParse | FOS_PROJECT_2024_TEMPLATE/lib/string.c:181-268 | Parsing what ltostr wrote gives the value if and only if it is not the least long |

## Left out

* `realloc_block_FF`, worst fit and next fit: they do not keep the address-ordered heap, or are not implemented.
* `LIST_CONCAT`: it clears the second list's size before adding it.
* The branch of `sched_exit_env` for new environments: its loop runs on and leaves a NULL pointer.
* MLFQ and BSD scheduling, plain round robin, kernel semaphores, shared objects: not implemented, or weaker instances
  of what is here.
* The exchange loop inside `acquire_spinlock` and its interrupt bookkeeping: a spin lock is taken in one atomic step.
* `context_switch`, `yield`, `sched`, `env_free`, `kmalloc`, `sys_` calls: only the contracts under Assumptions.
* Boot mapping, the self-mapped directory entries, TLB, disk transfers, consoles, timers, the command prompt.
* `pf_update_env_page`, the per-environment counters and locks of the page file: copies or statistics.
* The format loop of `vprintfmt`, and `sys_allocate_page`, which takes a frame before it checks its arguments.
* The `booked` flags and printed texts of the reservation programs, and the buffers for semaphore names, which are
  large enough for ids up to 9999.
- Allocator.Heap.AllocBlockBF: stops where it goes wild, before the list macros store outside the heap; it and the other operations are not stated on a heap cut at an odd size.
- Allocator.Heap.AllocBlockFF: stops where it goes wild, and is not stated on a heap that a failed repair left without a list.
- Allocator.Heap.FreeBlock: is not stated on such a heap either, after which free_block goes on with a list that does not match.
- UserHeap.Heap.AllocateUserMem: keeps only the marking of pages; the page file and working set parts of the kernel's loops are not modelled.
- UserHeap.Heap.FreeUserMem: keeps only the unmarking of pages, as above.
- BoundedWaiting.BoundedWaiting: counts ticks of a clock that runs only while the CPU runs something or nobody waits.
- SchedState.ExitEnv: does not model exit of a new environment, see above.
- Paging.MemoryManager.MapFrame: requires a count below 65535 and a frame that is not a page table, unless it fails for lack of memory.
- ArrayPrograms.ArrayStats: does not model overflow of the 64-bit sums.
- Numbers.Strtol: does not model a base above 36 or pointer identity of the end; the end is an index.
