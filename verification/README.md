# A small user-level operating system: paging, heap, scheduler, join, byte map

The repository builds a user-level operating system in C: threads with a multi-level feedback
scheduler, a memory manager that pages each thread's memory between 1600 frames and a swap file of
3900 slots, a heap on top of it, and a FUSE file system. This project models the stateful cores of
these and proves what they promise, or exactly when they keep the promise.

| files | what they cover |
|---|---|
| `PageTable`, `Pager` | the page table as a value with its operations as functions, and the same operations as methods on arrays |
| `Eviction` | second-chance eviction: which frame, and which bits |
| `FaultLaws`, `WipingLaws` | the path and net effect of a fault, and of the walk at a switch; free places hold zeros |
| `Transparency` | the fault handler against the simple map from (thread, page) to bytes |
| `PagingLaws`, `PageBudget` | conservation, isolation, and supply of free places |
| `Repairs`, `MendedPager`, `PagingRuns` | the declared repairs, on values and on arrays, and whole runs of all threads |
| `PagePool` | the page budget shared by the threads |
| `HeapBlocks`, `Allocation`, `AllocationLaws` | the heap as a list of blocks, what one request decides and charges, and when a freed block is used again |
| `HeapHeaders`, `HeapFrees`, `HeapRuns`, `Heap` | the linked headers in memory: when a free as written is right whatever owners wrote, whole runs, and the calls in place |
| `RefillSelection` | how many threads of each level a refill takes, in both versions of the library |
| `Scheduling`, `SchedulingLaws`, `SchedulingRuns`, `RunQueue`, `UncutRuns` | the scheduler as steps on values, what a step does in the program's numbers, its runs, the linked lists, and the lists without the cut |
| `JoinExit`, `JoinLaws`, `JoinProgress`, `JoinTable` | join and exit as steps, their effect entry by entry, their runs, how soon a join returns, and the two lists they use |
| `ByteMap` | the search for a free entry in an on-disk byte map |

The handler, the walk at a switch, the heap calls, the refill and the scheduler, the join lists and
the byte map search are stated twice: as methods that update arrays, headers, nodes or buffers in
place with the source's loops, and as functions on values. The methods are proved equal to the
functions, and the laws are proved about the functions. The older fill is a step function only,
because its loop need not end. Sizes are symbolic: any number of frames and slots, any
page size, any region; only queue quanta, the 300 ms and 375 ms limits, the header size and the byte
map's sizes are the program's numbers.

## Where the code departs from its promise

- A fault is not always invisible: `swapPage` (Memory_Manager/totalrecall.c:134) and `swapFileGrab`
  (line 90) mark a displaced page with the frame it is taken from even if that is not its home, and
  a free frame is claimed (lines 279-289) with an old mark. `FaultTransparentIffSafe` gives the exact
  condition, `ThreeFaultsLoseAPage` a run from the initial table that loses a page.
- `protectPages` stops at the first free frame (line 439) and leaves swap slots alone:
  `SwitchIsolatesIffReached` and `ExitForgetsIffReached`, with runs from the initial table in
  `SwitchLeavesFrameOpen` and `SlotSurvivesExit`.
- `mydeallocate` does not repair the link back of the block after a merge (lines 675-696), and later
  reads through it what may be the bytes of another block's owner (lines 676, 703).
  `HeapFrees.FreeIsRightIff` says which frees come out right whatever the owners wrote, and
  `HeapRuns.RunIsRightIff` which runs; `StaleLinkOvercounts` and `ReusedBlockIsWritten` are runs that
  do not.
- `myallocate` places the first block of an emptied list without a bound check (line 569) and
  without a charge, and charges an appended block from the page where its header ends:
  `StaysInBoundsIff` and `StaysCoveredIff`; `EmptiedListPassesEnd` and `AppendedBlockUncovered`.
- `createRunningQueue` leaves the last node pointing into its old queue (Memory_Manager/my_pthread.c:455-471):
  `RunQueue.Lists.CreateRunningQueue` says exactly when; `ThirteenThreadsRunOn`;
  `UncutRuns.ThirteenthInTwoLists` follows such a chain until a thread is in two lists.
- The older fill (Pthreads/my_pthread.c:383-399) does not step past a thread that does not fit:
  `OlderFillEndsIff`; `OlderFillSticks`.
- An exit wakes one joiner only (Memory_Manager/my_pthread.c:486-492): `NoWakeupLostIff`;
  `TwoJoinersLoseAWakeup`.
- The byte map search has no end on a full map and looks at entry 0 only if it starts there
  (Simple_File_System/src/sfs.c:394-402): `ProbingEndsIff`; `FullMapNeverEnds`.
- Memory_Manager/README:27 sets a thread back when it has run for more than 375 ms; the code does so
  at 375 ms, and the model follows the code.

## Declared repairs

The code as written is what the members above model. Four repairs are added where whole runs are
considered, each under a name or a flag of its own:

- `Repairs.CarryingFault`: a page that is moved keeps its own home, and a claimed frame counts as home.
- `Repairs.WideSwitch`: the walk at a switch goes through all frames, and on exit through all slots,
  which it wipes and frees as well.
  `PagingRuns.System.mended` turns both on; off, the runs are those of the code, guarded by the
  exact conditions.
- `Heap.ThreadHeap.relink`: after a merge the next header's `prev` is set to the merged block.
- `RunQueue.Lists.CutTail`: the running queue ends at its tail after a refill.

## Model

| member | source | states |
|---|---|---|
| Eviction.EvictionRounds | Memory_Manager/totalrecall.c:152-186 | Second-chance eviction clears exactly one set bit of a frame in every round but the last, touches no other field and no slot, ends with a victim whose bit is 0, and takes at most (number of set bits) + 1 rounds |
| PageTable.Evict | Memory_Manager/totalrecall.c:172-180 | The hand ends just after the victim modulo the number of frames, and an eviction changes nothing but nodes and hand |
| Eviction.OwnVictimFollowsOwnFrame | Memory_Manager/totalrecall.c:156-163 | A victim belongs to the running thread only if the frame before it in the ring does too: the loop skips one own frame, not all |
| Eviction.SecondChance | Memory_Manager/totalrecall.c:164-185 | A frame whose bit was set when the call began is evicted only after every frame of other threads has used up its bit |
| Eviction.EvictIsChosen | Memory_Manager/totalrecall.c:152-186 | Which frame is evicted, without a loop: going round from the hand, of a row of the running thread's own frames every other one is passed over, beginning with the first, and every other frame is looked at; the victim is the first one looked at whose bit was clear or has been cleared on the way. The bits of those looked at before it are cleared, nothing else changes, and the hand goes just behind it |
| Eviction.NoneSkipped | Memory_Manager/totalrecall.c:156-178 | No frame of another thread whose bit was clear when the call began is nearer to the hand than the victim; nor is a frame with a clear bit right behind an own frame at the hand, even if it is the running thread's own |
| Pager.PagedMemory.EvictPage | Memory_Manager/totalrecall.c:152-186 | The loop over the hand and the bits in place equals `Evict`, whose victim, bits and hand `EvictIsChosen` gives without a loop |
| Transparency.TakeOnCells | Memory_Manager/totalrecall.c:189-336 | Each of the handler's paths, with its `swapPage`, `swapFileGrab` and eviction steps, amounts to one rotation of (owner, home, bytes) cells among the faulted frame, the victim and the source, or to a claim in place |
| FaultLaws.PathIs | Memory_Manager/totalrecall.c:224-335 | Which path a fault takes, as an if-and-only-if on the nodes: the page at home; else in the first frame, or else the first slot, marked as away; else the faulted frame if free; else the first free frame; else a victim goes to the first free slot, if any |
| FaultLaws.FaultIs | Memory_Manager/totalrecall.c:189-336 | The whole net effect of a fault on each path: which nodes, bytes, bits, accessible flags and hand change and to what, and that all others stay |
| FaultLaws.FaultSetsBit | Memory_Manager/totalrecall.c:226-300 | After a fault that finds a place the faulted frame is the running thread's, and its reference bit is set if and only if the page did not come by way of the swap file |
| Transparency.FaultTransparentIffSafe | Memory_Manager/totalrecall.c:189-336 | For every table without a duplicate page: a fault keeps the bytes of every (thread, page) and adds at most (running thread, faulted page) if and only if the page moved out of the faulted frame and the evicted page both belong at that frame (or are free), and a claimed free frame carries no old home |
| Transparency.SafeFaultKeepsMemory | Memory_Manager/totalrecall.c:189-336 | Under that condition the map from (thread, page) to bytes is unchanged, or extended by exactly the new page with the bytes of the free place taken |
| PagingLaws.FaultConservesPages | Memory_Manager/totalrecall.c:36-150 | Unconditionally: the multiset of (owner, bytes) over all frames and slots is unchanged, except that the bytes of at most one free place become the running thread's |
| PagingLaws.FaultKeepsIsolation | Memory_Manager/totalrecall.c:189-336 | Every path keeps "accessible frames belong to the running thread"; the faulted frame becomes the running thread's unless no place was free |
| PagingLaws.SafeFaultKeepsOpenAtHome | Memory_Manager/totalrecall.c:189-336 | A transparent fault leaves every accessible frame i holding page i of the running thread |
| PagingLaws.SwitchIsolatesIffReached | Memory_Manager/totalrecall.c:431-460 | A switch through `protectPages` keeps isolation if and only if no accessible frame lies past the first free frame, where the walk stops |
| WipingLaws.ProtectIs | Memory_Manager/totalrecall.c:431-460 | The walk comes to exactly the frames before the first free one and closes those of the thread; on exit each of them keeps its length, holds only zero bytes and is free; every other frame and slot keeps bytes, node and protection |
| WipingLaws.NewPageReadsZero | Memory_Manager/totalrecall.c:447-453 | If frames and slots are zero at set-up, then after any allowed run, as written or mended, a page that a fault gives to its thread for the first time reads zero at every byte |
| WipingLaws.EventKeepsZero | Memory_Manager/totalrecall.c:189-460 | Every event, as written and mended, keeps all free places zero |
| PageBudget.FreePlaceExists | Memory_Manager/totalrecall.c:217-221 | Pigeonhole: if the counts sum to at most the number of frames and slots, and a thread misses a page within its count, some frame or slot is free |
| PageBudget.FaultFindsPlace | Memory_Manager/totalrecall.c:279-335 | So a fault within the thread's count never falls through the last search |
| PagingRuns.EventRefines | Memory_Manager/totalrecall.c:189-471 | Every fault, store, switch, exit and charge takes the table to a state whose (thread, page) map is that of the simple machine's step, and keeps the invariant; as written the guards are the exact conditions above, with the declared repairs only the caller's own |
| PagingRuns.ExitForgetsIffReached | Memory_Manager/totalrecall.c:431-467 | On exit no other thread loses a page; all pages of the leaving thread are forgotten if and only if none lies in a slot or past the first free frame |
| PagingRuns.PageSurvivesRun | Memory_Manager/totalrecall.c:189-471 | Over any run of any threads a page keeps its bytes until its owner writes it or exits |
| PagingRuns.ReadBack | Memory_Manager/totalrecall.c:189-471 | Over any run a thread that can touch a page reads back the bytes it last stored there |
| PagingRuns.RunKeepsPagesIff | Memory_Manager/totalrecall.c:189-471 | A run as written, in which the walks at switches and exits reach all they have to, keeps every page of every thread throughout if and only if each of its faults is safe when it comes; a mended run always does |
| PagingRuns.InitiallyEmpty | Memory_Manager/totalrecall.c:339-428 | The table after set-up satisfies the invariant and stands for the empty map |
| PagingRuns.ThreeFaultsLoseAPage | Memory_Manager/totalrecall.c:134 | From the initial table, as written: after a fault of thread 1 and one of thread 2 in page 0, a fault of thread 1 in page 1 loses page 0 of thread 1, for every table of at least three frames |
| Repairs.CarryingFaultKeepsMemory | Memory_Manager/totalrecall.c:134 | With the declared repair (moved pages keep their own home, a claimed frame counts as home) every fault on every path and in every state is transparent |
| Repairs.CarryingFaultKeepsOpenAtHome | Memory_Manager/totalrecall.c:266-267 | With that repair every accessible frame still holds the page that belongs there |
| Repairs.WideSwitchIsolates | Memory_Manager/totalrecall.c:439 | With the walk going through all nodes, a switch closes every frame of the thread that leaves, and an exit frees all its frames and slots and no others |
| WipingLaws.WideSwitchIs | Memory_Manager/totalrecall.c:439-453 | Place by place: the mended walk closes exactly the thread's frames, and on exit its frames and slots are free and hold only zero bytes; every other place keeps bytes, node and protection |
| PagingRuns.OpenAfterTwoFaults | Memory_Manager/totalrecall.c:224-248 | Within its count a thread has the faulted frame open after one fault, or after two if its page lies in that frame marked as away; as written and mended |
| PagingRuns.SwitchLeavesFrameOpen | Memory_Manager/totalrecall.c:439 | From the initial table, as written: after a fault in page 1 the walk stops at the free frame 0, and frame 1 stays open for the next thread |
| PagingRuns.SlotSurvivesExit | Memory_Manager/totalrecall.c:431-467 | From the initial table of one frame, as written: a page of thread 1 that was sent to a slot is still owned by thread 1 after its exit |
| MendedPager.CarryingPageFault | Memory_Manager/totalrecall.c:189-336 | The handler in place, with the repair of the homes, equals the mended handler on values |
| MendedPager.WideSwitchTo | Memory_Manager/totalrecall.c:431-471 | The walk in place through all frames, and on exit all slots, equals the mended switch on values, which `WipingLaws.WideSwitchIs` describes place by place |
| Pager.PagedMemory.constructor | Memory_Manager/totalrecall.c:339-428 | `buildKernalSpace`: all nodes free, all frames inaccessible |
| Pager.PagedMemory.SwapFileGrab | Memory_Manager/totalrecall.c:36-99 | Frame and slot exchange bytes and owners in place; the page that leaves is marked with the frame it left |
| Pager.PagedMemory.SwapPage | Memory_Manager/totalrecall.c:101-150 | Two frames exchange bytes, owners and reference bits in place; the first is opened, the second closed |
| Pager.PagedMemory.PageFault | Memory_Manager/totalrecall.c:189-336 | The handler on arrays equals the function `Fault`: same search order and path (`PathIs`), same final table (`FaultIs`) |
| Pager.PagedMemory.ProtectPages | Memory_Manager/totalrecall.c:431-471 | The walk on arrays equals the function `Protect`: it closes, and on exit fills with zeros and frees, exactly the thread's frames before the first free one (`ProtectIs`) |
| Pager.Locate | Memory_Manager/totalrecall.c:192-221 | A fault address leads to its page, to a refusal over the thread's count, or out of the region; the one address just past the region passes the range check |
| PagePool.Pool.constructor | Memory_Manager/totalrecall.c:339-428 | From zero counts, pages left plus counts equal the total |
| PagePool.Pool.Take | Memory_Manager/totalrecall.c:605-618 | A charge is refused exactly when too few pages are left; granted or refused, pagesLeft stays non-negative and pagesLeft plus all counts stays the total |
| PagePool.Pool.GiveBack | Memory_Manager/totalrecall.c:462-467 | An exit gives all pages of the thread back and keeps that sum |
| PageBudget.SumAfterChange | Memory_Manager/totalrecall.c:462-467 | Changing one count changes the sum by the difference |
| HeapBlocks.FreeIsCoalescing | Memory_Manager/totalrecall.c:675-709 | In a heap without adjacent free blocks or free end, the two local loops and the trim yield the full coalescing of the whole list, which is defined without any order of merging |
| HeapBlocks.FreeKeepsTiled | Memory_Manager/totalrecall.c:675-709 | Whatever the heap looked like, freeing keeps the blocks end to end and keeps their total extent, except for a trimmed free tail |
| HeapBlocks.FreeKeepsOthers | Memory_Manager/totalrecall.c:675-709 | The run that becomes one block held no used block but the freed one and ends at used blocks or the ends of the list; in the list after the free the blocks before and behind it are the same, and between them is the one free block, or nothing at the end of the list |
| HeapBlocks.AllocLive | Memory_Manager/totalrecall.c:581-629 | An allocation hands out a block apart from every live block, and no live block moves or changes size |
| HeapBlocks.FreeLive | Memory_Manager/totalrecall.c:658-709 | A free takes exactly that block from the live ones |
| HeapBlocks.RunRefines | Memory_Manager/totalrecall.c:519-714 | Over any run of allocations and frees the heap stays end to end, without adjacent free blocks and with its last block in use, and its live blocks are exactly those handed out and not yet freed |
| HeapBlocks.FreeingAllEmpties | Memory_Manager/totalrecall.c:698-709 | Freeing all live blocks in any order empties the list |
| AllocationLaws.FreeIs | Memory_Manager/totalrecall.c:658-709 | A free at an address where no used block is does nothing; any other replaces the used block and the free blocks that touch it by one free block from the first header to the last byte, or by nothing at the end of the list |
| Allocation.OutcomeIsAllocated | Memory_Manager/totalrecall.c:519-631 | A call is either refused and leaves the blocks alone, or returns the block that the exact-fit-or-append rule gives; it never charges more pages than are left |
| AllocationLaws.RefusedIff | Memory_Manager/totalrecall.c:532-618 | A request is refused if and only if it asks for nothing; or the thread has no pages and the block reaches the region's end or needs more pages than are left; or there are blocks, none is free with exactly this size, and the block behind the last one reaches the end or needs more pages than remain. A refusal leaves the blocks alone |
| AllocationLaws.AnswerIs | Memory_Manager/totalrecall.c:551-629 | Any other request is answered with the first block at the base, the first free block of exactly its size, or a block one header behind the last; charged are the least numbers of pages that hold it |
| AllocationLaws.FreedIsReused | Memory_Manager/totalrecall.c:585-590 | A block freed between used ones is handed out again to the next request of its size, at its old address, uncharged and with the heap as before the free, if and only if no free block of that size lies lower |
| AllocationLaws.FreedIsReusedLater | Memory_Manager/totalrecall.c:585-590 | The same after any run of calls in between that neither ask for its size nor free a neighbour |
| Allocation.StaysInBoundsIff | Memory_Manager/totalrecall.c:569-579 | A successful allocation ends below the region's end if and only if it is not the first block of a list that had been emptied, which is placed without a bound check, or that block happens to fit |
| Allocation.StaysCoveredIff | Memory_Manager/totalrecall.c:600-618 | The charged pages cover the new block if and only if it is reused, or is the first, or (list emptied before) fits the pages already counted, or (appended) its header ends inside a counted page, or ends inside the first page behind them while the block ends with a page |
| Allocation.AppendCoversIff | Memory_Manager/totalrecall.c:600-618 | What the charge for an appended block reaches, from the page in which its header ends |
| Allocation.EmptiedListPassesEnd | Memory_Manager/totalrecall.c:569-579 | Allocate, free, then ask for a block that does not fit the region: it is handed out past the end, and nothing is charged |
| Allocation.AppendedBlockUncovered | Memory_Manager/totalrecall.c:605-618 | A block behind one of 4040 bytes lies in the second page, for which nothing is charged |
| HeapHeaders.AllocIsRight | Memory_Manager/totalrecall.c:568-629 | Every allocation leaves headers that stand for the blocks: links forth right, no other signature, every link back right or into the block before; it writes in no block in use, and links back that mirrored the links forth still do |
| HeapHeaders.LikeIsRight | Memory_Manager/totalrecall.c:581-595 | Whether headers stand for the blocks does not depend on what owners wrote in their blocks |
| HeapFrees.StartGathering | Memory_Manager/totalrecall.c:658-672 | Clearing the in-use mark starts a run of the freed block alone |
| HeapFrees.BackStep | Memory_Manager/totalrecall.c:675-684 | One round of the loop back along a link that no owner wrote: the node takes up the block before it, or a dead header on the way there, and reaches beyond its run if a dead header was taken up |
| HeapFrees.ForthStep | Memory_Manager/totalrecall.c:688-696 | One round of the loop forth takes up the free block behind the run |
| HeapFrees.TrimIsRight | Memory_Manager/totalrecall.c:699-709 | A free that gathered the run in its first block and comes to the end of the list leaves the right headers if the link back of that block is right, and writes in no other block in use |
| HeapFrees.TrimIsWrong | Memory_Manager/totalrecall.c:699-709 | If that link is not right, the block before the run still leads into it |
| HeapFrees.RightNode | Memory_Manager/totalrecall.c:675-696 | The node of the run reaches just to its end if and only if the links back in the run were right |
| HeapFrees.MergedIsRight | Memory_Manager/totalrecall.c:675-696 | A free with blocks behind the run leaves the right headers if the links back in the run are, and writes in no other block in use; mirrored links still mirror if and only if they are repaired or nothing was merged |
| HeapFrees.FreeIsRight | Memory_Manager/totalrecall.c:658-714 | A sound free as written leaves headers that stand for the freed, merged and trimmed list and writes in no other block in use, on any heap and whatever its owners wrote |
| HeapFrees.FreeIsRightIff | Memory_Manager/totalrecall.c:658-714 | One free as written does so for all contents that owners can have given their blocks if and only if it is sound: the link back of the run is right, and those inside the run are right too or, where the list ends behind the run, lead on over dead headers that no owner could write |
| HeapFrees.UnsoundFails | Memory_Manager/totalrecall.c:675-703 | For every unsound free there are such contents with which the headers no longer stand for the list |
| HeapFrees.MirroredIsSound | Memory_Manager/totalrecall.c:675-684 | Where the links back mirror the links forth every free is sound |
| HeapFrees.SoundWhereNormal | Memory_Manager/totalrecall.c:675-684 | Where no two free blocks lie side by side this asks for the link back of the freed block and, if the block before it is free, of that one |
| HeapFrees.OtherFreesWriteNothing | Memory_Manager/totalrecall.c:658-669 | Freeing an address where no used block is writes no header |
| HeapRuns.ActIsRight | Memory_Manager/totalrecall.c:519-714 | Every allocation, sound free and owner's write keeps the heap right; a call writes in no block in use but the one it frees |
| HeapRuns.RunIsRightIff | Memory_Manager/totalrecall.c:519-714 | A run of allocations, frees and owners' writes is right throughout whatever the owners wrote, and spares their blocks, without the repair or with it, if and only if every free in it is sound when it comes |
| HeapRuns.RepairedRunIsSound | Memory_Manager/totalrecall.c:675-696 | With the repair every run is sound, owners' writes included |
| HeapRuns.SoundRunRefines | Memory_Manager/totalrecall.c:519-714 | After a sound run, also without the repair and with owners' writes, the headers stand for the blocks of the calls on values, and the live blocks are those handed out and not yet freed |
| HeapRuns.BytesStay | Memory_Manager/totalrecall.c:519-714 | What an owner wrote in its block stays there over any sound run, until it writes there again or frees the block |
| HeapRuns.FourBlocksAreRight | Memory_Manager/totalrecall.c:597-629 | The headers of four used blocks end to end, linked both ways |
| HeapRuns.StaleLinkOvercounts | Memory_Manager/totalrecall.c:675-684 | As written, for all block sizes: freeing the first, second and third of four blocks makes the first count the second twice and reach into the fourth, which is in use |
| HeapRuns.ThreeFreesOvercount | Memory_Manager/totalrecall.c:658-714 | The same, by the headers that three calls of the program leave |
| HeapRuns.HandedOutAgain | Memory_Manager/totalrecall.c:581-589 | The headers after the first two of three blocks were freed and their space was handed out again: a dead header lies in the block now in use, and the third block still points back to it |
| HeapRuns.ReusedBlockIsWritten | Memory_Manager/totalrecall.c:675-703 | As written, for all block sizes: freeing the third block then writes in the first, which is in use; or, if its owner wrote over the dead header, leaves the first leading to a block that is gone; so the free is not sound |
| Heap.ThreadHeap.constructor | Memory_Manager/totalrecall.c:339-428 | A heap starts without blocks |
| Heap.ThreadHeap.FirstPages | Memory_Manager/totalrecall.c:557 | The page loop finds the least number of pages that holds the header and the block |
| Heap.ThreadHeap.FurtherPages | Memory_Manager/totalrecall.c:608 | The page loop finds the least number of further pages, given the rest of the header's page |
| Heap.ThreadHeap.FindFit | Memory_Manager/totalrecall.c:581-595 | The walk along `next` finds the first free block of exactly the size, or ends at the last block |
| Heap.ThreadHeap.MyAllocate | Memory_Manager/totalrecall.c:519-631 | The call on headers and counters decides, links and charges exactly as `Allocate` says, which `RefusedIff` and `AnswerIs` give in terms of the list, and keeps the headers right, mirrored links mirrored, and the page budget |
| Heap.ThreadHeap.MergeLeft | Memory_Manager/totalrecall.c:675-684 | The loop back in place equals the function, on any headers |
| Heap.ThreadHeap.MergeRight | Memory_Manager/totalrecall.c:688-696 | The loop forth in place equals the function |
| Heap.ThreadHeap.MyDeallocate | Memory_Manager/totalrecall.c:633-714 | Any call, also on stale links and whatever owners wrote: a pointer out of range or at no used block changes nothing; otherwise the headers are those of the function. If the free is sound they stand for the freed, merged and trimmed list and nothing is written in another block in use; and it is sound if and only if that is so for all contents of the owners' blocks. From mirrored links every free is sound, and they still mirror if and only if the repair is on, or the tail was trimmed, or nothing was merged |
| RefillSelection.SelectionLaws | Memory_Manager/my_pthread.c:352-416 | For all queue lengths: the fill is within 300 ms, gives at least min(n, 4), min(n, 2) and min(n, 1) threads to the levels, leaves a thread out only when its quantum no longer fits, and is empty only if all queues are |
| RefillSelection.SelectIsTheFill | Memory_Manager/my_pthread.c:352-416 | The fill is the one choice that is within 300 ms, leaves out a thread only when its quantum no longer fits, gives the levels their quota 4-2-1, and goes beyond the quota of level 1 only when level 0 is taken whole, and beyond that of level 2 only when levels 0 and 1 are |
| RefillSelection.FirstPickIs | Memory_Manager/my_pthread.c:373-396 | What both fills begin with, in numbers |
| RefillSelection.FillsAgreeOrOneSticks | Pthreads/my_pthread.c:383-399 | The older fill reaches the newer fill's choice if that totals 300 or leaves no thread of level 1 or 2; otherwise it reaches a state that its loop body does not change |
| RefillSelection.OlderFillEndsIff | Pthreads/my_pthread.c:383-399 | So the older fill terminates if and only if that condition holds |
| RefillSelection.OlderFillSticks | Pthreads/my_pthread.c:385-398 | Seven threads of level 0 and three or more of level 1 stop the older fill for ever |
| RunQueue.Lists.Tally | Memory_Manager/my_pthread.c:352-416 | The counting loops over the linked lists choose the counts of `Select`, the only ones that `FillLaws` allows |
| RunQueue.Lists.Load | Memory_Manager/my_pthread.c:418-471 | A loading loop moves the first n nodes of one queue, in order, behind the running queue |
| RunQueue.Lists.CreateRunningQueue | Memory_Manager/my_pthread.c:348-474 | From an empty running queue and three well-formed disjoint lists, the segment head..tail is exactly the prefixes that the fill laws allow, in order of level, the queues keep the suffixes, no node lies in two lists, and the chain ends at its tail if and only if the last level drawn from is drained |
| RunQueue.ThirteenThreadsRunOn | Memory_Manager/my_pthread.c:418-431 | Of thirteen or more threads, all of level 0, twelve are taken, so that the chain runs on into the rest |
| RunQueue.Lists.Refill | Memory_Manager/my_pthread.c:255-259 | `createRunningQueue` followed by the declared cut of the chain equals the refill on values |
| UncutRuns.RefillUncut | Memory_Manager/my_pthread.c:348-474 | The refill as written gives the lists of the refill on values; the chain ends at its tail if and only if the last level drawn from is drained |
| UncutRuns.RunUncut | Memory_Manager/my_pthread.c:140-474 | A run as written, without the cut, in which every refill drains the last level it draws from, is the run with the cut |
| UncutRuns.ThirteenthInTwoLists | Memory_Manager/my_pthread.c:255-259 | As written, from the creation of twelve threads on: after the main thread and eleven of them yielded once, the thirteenth executes while it still waits at the head of queue 0 |
| RunQueue.Lists.Account | Memory_Manager/my_pthread.c:177-220 | Time, aging, demotion and status of a returning thread in place, as `SliceCounts` gives them in numbers |
| RunQueue.Lists.Retire | Memory_Manager/my_pthread.c:177-253 | The running head leaves for good if it exited, and else goes to the end of the queue of its new priority, one level lower after a whole slice |
| RunQueue.Lists.Schedule | Memory_Manager/my_pthread.c:177-332 | One call of the scheduler on linked lists equals the step on values, which `StepIs` spells out |
| RunQueue.Lists.FirstSchedule | Memory_Manager/my_pthread.c:154-176 | The first call puts the main thread at the front of queue 0 and fills the running queue |
| RunQueue.Lists.Admit | Memory_Manager/my_pthread.c:84-116 | A created thread goes to the end of queue 0 under the next id |
| RunQueue.Lists.Step | Memory_Manager/my_pthread.c:125-137 | Create, yield, timer and exit on linked lists equal the steps on values |
| Scheduling.ReturnedStaysAged | Memory_Manager/my_pthread.c:181-220 | Time run stays a multiple of 25 below 375; priority 1 has run at least 25 ms and priority 2 at least 75 |
| SchedulingLaws.SliceCounts | Memory_Manager/my_pthread.c:177-220 | A slice adds 25, 50 or 100 ms by level. Below 375 ms a thread is one level lower after a whole slice, not below 2, and at its level after a yield; from 375 ms on it is at level 0 with no time run |
| SchedulingLaws.StepIs | Memory_Manager/my_pthread.c:84-332 | Every step: a created thread is the last of queue 0, the executing one the last of the queue that its slice leads to, or gone on exit; the next of the running queue executes, or if there is none, the fronts of the queues as the laws of the fill allow |
| SchedulingLaws.TimerDemotes | Memory_Manager/my_pthread.c:216-253 | After the timer the executing thread is the last of the queue one level lower, after a yield the last of its own, after 375 ms the last of queue 0; no other thread moves |
| SchedulingLaws.FirstCallIs | Memory_Manager/my_pthread.c:154-176 | The first call takes the fronts of the queues with the main thread before all others of level 0 |
| SchedulingLaws.RunDispatches | Memory_Manager/my_pthread.c:140-332 | Over any run in which a thread does not exit, its level and time run change by its own slices only, as the slices say |
| SchedulingLaws.LevelAfterRun | Memory_Manager/my_pthread.c:177-220 | Over any run a thread that began at level 0 with no time run, and has not been set back, is at level min(2, number of its whole slices) |
| Scheduling.ThreeTurnsAtLevel2 | Memory_Manager/my_pthread.c:181-220 | A thread is dispatched at most three times in a row at level 2 |
| Scheduling.ResetWithin15 | Memory_Manager/README:24-28 | Within any 15 dispatches a thread is set back to priority 0 |
| Scheduling.ScheduleConserves | Memory_Manager/my_pthread.c:198-253 | One scheduler call loses and doubles no thread but the exited one |
| Scheduling.StepConserves | Memory_Manager/my_pthread.c:125-137 | A create adds its thread, an exit removes its own, every other step keeps all threads |
| SchedulingRuns.StepKeepsInvariant | Memory_Manager/my_pthread.c:140-332 | Every step keeps: each live thread in exactly one place, queue k holds only priority-k threads, exactly the running head is RUNNING; or the last thread exits and the process ends |
| SchedulingRuns.FirstScheduleStarts | Memory_Manager/my_pthread.c:154-176 | The first call establishes that invariant with the main thread added |
| SchedulingRuns.OnlyExitLeaves | Memory_Manager/my_pthread.c:198-208 | Over any run a live thread is still in exactly one place or was executing when it exited |
| SchedulingRuns.StepMoves | Memory_Manager/my_pthread.c:210-332 | Every step brings a waiting thread strictly nearer to the processor, whatever the step is |
| SchedulingRuns.BoundedWaiting | Memory_Manager/README:13-17 | A thread at position k of level L executes within r + 12*floor(k/q) + 11 scheduler steps, q being 4, 2 or 1, and one at position i of the running queue within i, whatever the other threads do |
| JoinExit.StepKeepsConsistent | Memory_Manager/my_pthread.c:477-628 | Every step keeps: one block per waiting thread, a block marked done only if its target is gone, one exit value per thread that is gone |
| JoinExit.JoinReturnsIffGone | Memory_Manager/my_pthread.c:574-580 | Join returns only when its target is in no queue; and, if no wakeup was lost, whenever that is so |
| JoinExit.ExitWakesAllIff | Memory_Manager/my_pthread.c:484-492 | An exit loses no wakeup if and only if at most one thread waits for the exiting one |
| JoinLaws.LeaveIs | Memory_Manager/my_pthread.c:477-515 | On exit the first block for the thread is marked and no other changes; a value other than null goes to the front of the values |
| JoinLaws.JoinIs | Memory_Manager/my_pthread.c:518-625 | A join whose target lives puts a block in front and gives way; any other returns at once with the blocks as they were, and takes out and delivers the first value of its target if the caller wants it |
| JoinLaws.PollIs | Memory_Manager/my_pthread.c:574-625 | A waiting thread gives way until its block is marked; then exactly its block goes, and the first value of its target is taken out and delivered if the caller wants it |
| JoinProgress.TwoJoinersLoseAWakeup | Memory_Manager/my_pthread.c:486-492 | From the first call of the scheduler: thread 1 creates a third thread, threads 2 and 3 join thread 1, and its exit leaves thread 2 waiting for a thread that is gone |
| JoinProgress.DoneJoinReturns | Memory_Manager/my_pthread.c:574-580 | In any run, a thread whose block is marked done returns from its join before the scheduler was called more often than the bound on waiting |
| JoinProgress.JoinReturnsSoon | Memory_Manager/my_pthread.c:518-628 | As long as no wakeup was lost, a join whose target is gone returns within r + 12*floor(k/q) + 11 scheduler calls, or i from position i of the running queue |
| JoinExit.StepKeepsLost | Memory_Manager/my_pthread.c:574-580 | A lost waiter stays lost in every step and its join does not return |
| JoinExit.NoWakeupLostIff | Memory_Manager/my_pthread.c:477-628 | Over any run no wakeup is lost if and only if no thread exits that two others wait for |
| JoinExit.JoinDelivers | Memory_Manager/my_pthread.c:603-625 | A join whose caller wants the value gets the value that its target left, if and only if there is one, and takes it away |
| JoinExit.RunConservesValues | Memory_Manager/my_pthread.c:494-510 | Over any run the exit values left are exactly those delivered and those still waiting |
| JoinExit.DeliveredOnce | Memory_Manager/my_pthread.c:603-625 | Over any run no thread's exit value is delivered twice |
| JoinTable.Table.Leave | Memory_Manager/my_pthread.c:477-515 | The loop over the join list marks the first block for the exiting thread; a non-null value goes to the front of the value list |
| JoinTable.Table.Begin | Memory_Manager/my_pthread.c:518-572 | A new block goes to the front; the searches of the four lists find the target exactly when it lives |
| JoinTable.Table.Unlink | Memory_Manager/my_pthread.c:583-601 | Exactly the caller's block is taken out |
| JoinTable.Table.TakeValue | Memory_Manager/my_pthread.c:603-625 | The first value of the thread, if any, is returned and taken out |
| ByteMap.ProbingEndsIff | Simple_File_System/src/sfs.c:348-420 | The probe order comes to a free entry if and only if one of 1..4999 is free, or the search starts at entry 0 and that is free; otherwise the loop goes round for ever |
| ByteMap.FirstFreeIsProbed | Simple_File_System/src/sfs.c:393-402 | The first free entry that the probe order comes to is that of the flat search start..4999, 1, 2, ... |
| ByteMap.FoundIs | Simple_File_System/src/sfs.c:364-402 | The entry found is the first free one from the start to 4999, or if there is none the first free one from 1 on |
| ByteMap.EntriesAre | Simple_File_System/src/sfs.c:355-362 | The inodes' entries lie in blocks 0 to 9 and those of the data blocks in blocks 10 to 19, 512 a block |
| ByteMap.BlockOf | Simple_File_System/src/sfs.c:366-374 | The division loop computes the block of an entry |
| ByteMap.Disk.GetFreeEntry | Simple_File_System/src/sfs.c:348-420 | The search through a one-block buffer returns the entry of the flat search on the whole map and changes exactly that byte on disk: in blocks 0 to 9 for kind 0, in 10 to 19 for any other |
| ByteMap.Disk.Fetch | Simple_File_System/src/sfs.c:376-391 | At every probe the buffer equals the block on disk that holds the entry; it is read only if another block is in the buffer |
| ByteMap.FullMapNeverEnds | Simple_File_System/src/sfs.c:364-402 | On a full map, or one in which only entry 0 is free and the search starts elsewhere, every entry probed is marked |
| ByteMap.OneByteChanged | Simple_File_System/src/sfs.c:404-412 | Writing back one byte of one block changes one entry of one map and nothing of the other map |

## Left out

- JoinExit.Run: a waiting thread's only step is one round of its loop; library code is taken to run without interruption from one yield to the next, so a timer inside it is not modelled.
- RunQueue.Lists.LinkFront: also sets the tail of an empty queue 0, which the program leaves null; nothing reads it before the refill has drained that queue.
- Heap.ThreadHeap.MyDeallocate: asks that the headers stand for the blocks; a heap that an unsound free has spoilt is not followed further.
- HeapHeaders.FreeBefore: an unsound free can read a link out of an owner's bytes; where that leads to an address without an entry, or up, the loop back is taken to end. What makes a free right does not rest on it: sound frees read no such link, and the contents with which `UnsoundFails` shows the others wrong do not lead there.
- ByteMap.Disk.GetFreeEntry: asks for an entry that the search can find, since otherwise the loop has no end, as `ProbingEndsIff` says.
- Pager.Locate: the one address just past the region, which passes the range check, is reported and not followed into the node beyond the table.
- Signals, timers, context switching, `mprotect`, `lseek`, `read`, `write` and `exit` as system calls: their effect is a choice of step, an accessible flag, or an exchange of pages; I/O is taken to succeed, so the branches that print an error and stop are not modelled.
- The byte layout of the 8 MB region: frames, slots, counters and heaps are separate objects. Headers at different addresses do not overlap, and an owner writes only inside its own block and never the signature 3233.
- Integer width: addresses, sizes and page counts are unbounded, and a size is never negative.
- The reference bit is a boolean, and a list node and its thread control block are one object; a new node's `next` is null, as the zeroed region makes it.
- The join and exit-value lists are sequences searched and cut by position, and a join block is identified by its joiner, not by its address.
- `schedulerallocate` and `shalloc`: the same list as `myallocate` without the page budget and with other bounds.
- The `start` flag that makes `mydeallocate` return before the first allocation: the heap is taken to be set up.
- Mutexes, and the uncontended lock around the thread counter.
- A failed allocation of a control block or a list node in the thread library.
- `sfs_create`, `sfs_unlink`, path lookup, `readdir`, `getattr` and the empty `read`, `write` and `mkdir`: their offsets, slot order and block numbers do not match each other.
- Logging, FUSE glue, build files and the programs that exercise the libraries.
