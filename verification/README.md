# RT-Thread on ESP32: a Dafny model of the kernel's core

The repository is an RT-Thread kernel with a port layer for the ESP32. This project models the parts whose
correctness is not visible in any single function and proves what they keep over every sequence of operations:

- **memheap** (`MemHeapLayout`, `MemHeap`, `Kservice`): the heap with in-band headers, two doubly linked lists, splitting,
  merging and in-place resizing, together with the word-wise copy that resizing relies on.
- **message queue** (`MessageQueue`): `send`, `urgent` and `recv` give up the lock in the middle. Each critical section is
  one method and a thread's program point is part of the state, so every sequence of method calls is an interleaving.
- **timers** (`Ticks`, `TimerRows`, `Timers`): the skip list of hard timers under a 32-bit tick that wraps around, proved
  against unbounded time.
- **mailbox, mutex, event** (`Mailbox`, `Mutex`, `Event`, `IpcList`, `RingBuffer`): blocking operations with timeouts and
  resets, modelled like the message queue.
- **scheduler** (`Bitmap`, `RoundRobin`, `Scheduler`): ready lists, the priority bitmap in its flat and its two-level form,
  find-first-set, time slices.
- **slab** (`PageRuns`, `Pages`, `SlabSizes`, `SlabZones`, `SlabSteps`, `Slab`): the page allocator and the zones above it.
- **fmq** (`Fmq`): the FreeRTOS-style queue of the port layer, on a byte ring.
- **DHCP server** (`DhcpPool`, `Dhcp`): the lease table of the access point.
- **mkromfs** (`Romfs`, `Options`): the binary image of a directory tree.
- **lists** (`Ring`, `ChainList`): the kernel's circular lists and null-terminated chains over explicit memory.

Code that updates state in place is modelled by classes and methods. The free lists and block chains of the allocators
and the message queue's lists are maps from integer addresses to addresses, so aliasing and the order of stores are those
of the code. The rows of the timer list, the ready lists and the IPC waiting lists are sequences; what the stores of
`rtservice.h` do to a circular list is proved once, in `Ring`. Ghost fields give the abstract value (the chain of blocks,
the queued messages, the live chunks), `Valid()` ties them to the real fields, and each method's postcondition says what
the operation does to the abstract value. A critical section, between `rt_hw_interrupt_disable` and
`rt_hw_interrupt_enable`, is one atomic step. An operation that leaves its critical section and enters another one is
several methods, with the other threads' steps and ticks in between.

## What the proofs found

Some properties one might expect do not hold of the code. The model keeps the code and states exactly when they do hold.

- The timer comparisons are right exactly while true distances lie in [RT_TICK_MAX/2 - 2^32, RT_TICK_MAX/2)
  (`Ticks.LaterExact`, `Ticks.ExpiredExact`). A timer started with delay zero fires one tick later, not at once
  (`Timers.TimerList.StartInsert`).
- `rt_timer_start` computes the deadline before it enters the section that inserts the timer. If ticks pass in between,
  the timer fires in the first check after the insertion, which may be later than its deadline (`Timers.LateStart`), and
  the list can lose its order (`Timers.PreemptedStart`). The list stays sorted exactly when every comparison the search
  makes is truthful (`Timers.TimerList.StartInsert`, `TimerRows.Searches`), which is a matter of the timers the search
  looks at being inside the window (`TimerRows.SearchesExact`): a timer outside of it that the search does not get to does
  no harm (`TimerRows.FarTimerHarmless`). While no queued timer is overdue by more than two ticks, every start is
  truthful (`Timers.TimerList.Calm`).
- `rt_timer_stop` clears the activated flag after its critical section. If the timer is started again in between, it is
  queued without its flag; the state stays right exactly when the timer is not queued by then
  (`Timers.TimerList.StopClear`, example `Timers.FlagLost`).
- `rt_thread_delete` and `rt_thread_detach` take the thread off its list in one section, stop its timer in another and
  mark it closed outside of any, which leaves two gaps. The closed thread stays on a ready list, and the index is wrong,
  exactly when it is on one when the mark is stored (`Scheduler.Kernel.CloseMark`). For any sequence of ticks, resumes,
  start-ups, priority changes and suspends in the two gaps this can be told from the thread's state and timer
  (`Scheduler.Kernel.DeleteAmong`): it is so exactly when some event revives the thread and no suspend follows
  (`Scheduler.LastRevival`). A tick revives a thread whose timer runs, and so only in the first gap; in both gaps a resume
  revives a suspended thread, a start-up a new one and a change of priority a ready one, so that no state is safe
  (`Scheduler.NoStateIsSafe`, examples `Scheduler.DeleteStruck`, `Scheduler.DeleteResumed`).
- `rt_thread_suspend` tests the state before its section. A thread closed in between leaves the defunct list and is
  suspended again (`Scheduler.Kernel.SuspendSection`); if it was not on that list yet, the end of its deletion leaves a
  thread there that is not closed (`Scheduler.Kernel.CloseEnd`, example `Scheduler.SuspendedLate`).
- `rt_thread_resume` unlinks and inserts in two sections. Without a lock of its caller, the index survives the second one
  exactly when the thread is on no ready list by then (`Scheduler.Kernel.ResumeInsert`, example
  `Scheduler.ResumedTwice`).
- The mutex's nesting depth is an 8-bit field: a take keeps the invariant exactly when it is not the 256th nested one
  (`Mutex.Mutex.Take`, example `Mutex.HoldWraps`). A change of priority does not look at the mutex
  (`Mutex.Mutex.ChangePriority` says when inheritance survives it). Priority inheritance needs the priority flag: with the
  FIFO flag a waiter can stay more urgent than the owner (`Mutex.FifoInversion`).
- A DHCP pool that ends at .255 can hand out an address outside the pool. The address chosen is right exactly when the
  pool ends below .255, the list is empty, or an address between the rotating pointer and the end is free
  (`DhcpPool.PickRight`, example `DhcpPool.EscapeExample`).
- The DHCP server's eviction of "the oldest lease" never considers the first lease of the list. It evicts the oldest one
  exactly when some other lease has no more time left than the first (`Dhcp.OldestOfAll`, example `Dhcp.OldestSpared`).
- `rt_memheap_alloc` refuses a request as large as all the available memory even if one block would fit it exactly, since
  it compares with `<` (`MemHeap.MemHeap.Alloc` states the exact condition, example `MemHeap.ExactFitRefused`).
- A message queue keeps its message size and its number of messages in 16 bits; larger ones are cut
  (`MessageQueue.Queue.constructor`).
- A romfs image gives its tree back exactly when no name contains a NUL byte (`Romfs.RoundTrip`).

## Model

| member | source | states |
|---|---|---|
| Ring.InsertAfterRing | rt-thread/include/rtservice.h:62-69 | the four stores of an insertion keep every list circular in both directions and put the node behind its anchor |
| Ring.UnlinkRing | rt-thread/include/rtservice.h:92-93 | the first two stores of a removal leave the ring without the node, in both directions |
| Ring.ListMemory.InsertAfter | rt-thread/include/rtservice.h:62-69 | the list becomes the old sequence with the node directly behind the anchor; other lists keep theirs |
| Ring.ListMemory.InsertBefore | rt-thread/include/rtservice.h:77-84 | the list becomes the old sequence with the node directly in front of the anchor, which is the end if the anchor is the list head; other lists keep theirs |
| Ring.ListMemory.Remove | rt-thread/include/rtservice.h:90-96 | the node is gone from its list and alone; other lists keep theirs |
| Kservice.MemCopy | rt-thread/src/kservice.c:219-281 | the copy by four words, one word and single bytes, chosen by alignment and length, moves exactly the requested bytes and no others |
| MemHeapLayout.PoolConserved | rt-thread/src/memheap.c:72-75 | used payloads, free payloads and one header per block add up to the chain's whole extent, for every chain |
| MemHeapLayout.TakeSplit | rt-thread/src/memheap.c:195-243 | splitting a free block keeps the tiling, the free list and the coalescing, and takes request plus header from the free bytes |
| MemHeapLayout.MoveBoundary | rt-thread/src/memheap.c:337-407 | moving the border between a used block and the free block behind it keeps the whole layout and shifts just that many bytes |
| MemHeapLayout.ReleaseBoth | rt-thread/src/memheap.c:536-592 | freeing between two free neighbours makes one block of three and gains two headers |
| MemHeapLayout.AllFreed | rt-thread/src/memheap.c:499-596 | a well-formed pool with nothing in use is the single initial block: no other coalesced layout exists |
| MemHeap.MemHeap.constructor | rt-thread/src/memheap.c:60-125 | for every pool that holds both headers and a smallest payload, one free block and the used tailer tile the pool; available and peak sizes match |
| MemHeap.MemHeap.FindFit | rt-thread/src/memheap.c:176-187 | the search over the free list stops at the first block that is large enough, or finds none |
| MemHeap.MemHeap.Alloc | rt-thread/src/memheap.c:146-288 | null exactly when the rounded size is not below the available size or no free block fits; else first fit, a new live block of the right size, what is left over becomes the first free block, and available_size falls by exactly the payload and header taken; every live block keeps place, size and bytes; max_used_size is the largest use ever seen; the layout invariant holds |
| MemHeap.MemHeap.Free | rt-thread/src/memheap.c:499-596 | only the given block stops being live; all other live blocks keep place, size and bytes; neighbours are merged so that no two free blocks touch; available_size rises by the payload and one header per merge |
| MemHeap.MemHeap.GrowInPlace | rt-thread/src/memheap.c:337-407 | the block gets exactly the new size from the free block behind it, whose header moves; its bytes and all other blocks are kept; available_size falls by the difference |
| MemHeap.MemHeap.Shrink | rt-thread/src/memheap.c:436-489 | the block gets exactly the new size; the tail becomes a free block, merged with a free right neighbour; leading bytes and all other blocks are kept; available_size rises by the tail, less a header if it was not merged |
| MemHeap.MemHeap.MoveBlock | rt-thread/src/memheap.c:412-420 | a new block with the old bytes and the old one released, or null with nothing changed exactly when no block can be had; max_used_size counts both copies; available_size changes by what the new block took and what the release, merged with its neighbours as they are by then, gave back |
| MemHeap.MemHeap.MoveAmong | rt-thread/src/memheap.c:409-422 | the same as the code runs it, unlocked before the allocation, around the copy and before the release: whatever other threads allocate, free and reallocate in between, the bytes arrive and the old block goes, or it is left as it was |
| MemHeap.MemHeap.Others | rt-thread/src/memheap.c:146-596 | any sequence of allocations, releases and reallocs by others keeps the size and bytes of the blocks one owns |
| MemHeap.MemHeap.Resize | rt-thread/src/memheap.c:314-495 | across growing in place, moving, staying and shrinking: which of them happens, the exact size afterwards and the exact change of available_size; the first min(old, new) bytes survive, every other live block is untouched, failure, with its exact condition, changes nothing, and max_used_size is the running maximum, including the moment when both copies exist |
| MemHeap.MemHeap.Realloc | rt-thread/src/memheap.c:291-496 | zero size frees, a null pointer allocates, otherwise as Resize; the block is never more than a header and a smallest payload larger than asked; null for a non-zero size exactly when the block has to grow, cannot grow in place, and no free block fits |
| MemHeap.MemHeap.Accounting | rt-thread/src/memheap.c:237-249 | in every reachable state available_size is the sum of the free payloads, and used, free and headers make up the pool |
| MemHeap.MemHeap.Drained | rt-thread/src/memheap.c:538-592 | once everything is freed, in whatever order, the heap is again the single initial block |
| MemHeap.ExactFitRefused | rt-thread/src/memheap.c:162 | a fresh heap refuses the request that its only free block would hold exactly |
| IpcList.SuspendedSorted | rt-thread/src/ipc.c:92-135 | a waiting list ordered by priority stays ordered |
| IpcList.SuspendedPlace | rt-thread/src/ipc.c:92-135 | the newcomer goes behind everybody at least as urgent and in front of everybody less urgent |
| IpcList.RemovedAt | rt-thread/include/rtservice.h:90-96 | a thread leaves a list and the others stay in their order |
| IpcList.ListSuspend | rt-thread/src/ipc.c:92-135 | the search loop inserts the thread where plain ordered insertion does, or at the end for FIFO |
| MessageQueue.Queue.constructor | rt-thread/src/ipc.c:1742-1789 | the pool is cut into as many disjoint nodes as fit, all inside the buffer and all on the free list; message size and node count are taken modulo 2^16 |
| MessageQueue.Queue.SendTake | rt-thread/src/ipc.c:1928-1960 | refused exactly when the message is too long or no node is free; else one node is in flight, owned by this thread alone |
| MessageQueue.Queue.SendFill | rt-thread/src/ipc.c:1962-1965 | outside the lock the message is written into a node nobody else can reach; the invariant holds in between |
| MessageQueue.Queue.SendLink | rt-thread/src/ipc.c:1967-2001 | the message becomes the last normal one, entry counts it, and the first waiter, and nobody else, is resumed with the buffer size it asked for |
| MessageQueue.Queue.UrgentLink | rt-thread/src/ipc.c:2053-2083 | the message goes in front of everything, entry counts it, and the first waiter, and nobody else, is resumed with the buffer size it asked for |
| MessageQueue.Queue.RecvStart | rt-thread/src/ipc.c:2099-2209 | takes the front message, newest urgent first then oldest normal, or blocks or times out exactly when there is none; either way the buffer size of the call goes along |
| MessageQueue.Queue.RecvResume | rt-thread/src/ipc.c:2131-2209 | a resumed receiver tests again, with the buffer size it was called with: a message may have been taken by someone else meanwhile, and errors end the call |
| MessageQueue.Queue.RecvCopy | rt-thread/src/ipc.c:2211-2212 | exactly min(size of the call, message size) bytes of the node are delivered and begin with the message that was taken, whatever happened since, for receivers that had to wait and for those that had not |
| MessageQueue.Queue.RecvPut | rt-thread/src/ipc.c:2214-2224 | the node returns to the free list; free, queued and in-flight nodes still partition the pool |
| MessageQueue.Queue.HandOver | rt-thread/src/ipc.c:1898-2232 | end to end for every message and buffer size: a receiver that blocked gets the message then sent, cut to the size it asked for |
| MessageQueue.Queue.Timeout | rt-thread/src/thread.c:694-715 | a waiter that times out leaves the list and will report an error; nothing else moves |
| MessageQueue.Queue.Reset | rt-thread/src/ipc.c:2238-2282 | exactly the waiters fail, every queued node joins the free list, nodes in flight stay with their threads |
| MessageQueue.Queue.EntryFits | rt-thread/src/ipc.c:1983 | in every reachable state the message count is at most the number of nodes and below 2^16, so its 16 bits suffice |
| MessageQueue.DeliveryOrder | rt-thread/src/ipc.c:1928-2282 | in every run normal messages leave in the order they were linked, urgent ones never reorder them, and nothing is lost or doubled |
| MessageQueue.Queue.Delivered | rt-thread/src/ipc.c:1928-2282 | the same of the queue object itself, whatever interleaving led to its state |
| Ticks.LaterExact | rt-thread/src/timer.c:351-363 | the modular "later than" answers by true time exactly in the window [HALF - 2^32, HALF) |
| Ticks.ExpiredExact | rt-thread/src/timer.c:506-510 | the modular expiry test answers by true time exactly in that window |
| TimerRows.SplitIsSortedInsert | rt-thread/src/timer.c:339-388 | inserting at the place the search finds is plain sorted insertion, behind equal deadlines |
| TimerRows.RowIsSubsequence | rt-thread/src/timer.c:339-388 | every row of the skip list is the row below it filtered, so it is a subsequence |
| TimerRows.Inserted | rt-thread/src/timer.c:373-388 | whatever levels the insertion counter chooses, all rows stay sorted and nested |
| Timers.TimerList.Raise | rt-thread/src/timer.c:371-388 | the timer goes into the bottom row and into one row more for each zero digit at the low end of the insertion counter, which counts up by one |
| Timers.TimerList.FindRow | rt-thread/src/timer.c:342-364 | one row's search, on 32-bit ticks, stops behind all earlier or equal true deadlines and before all later ones if its comparisons are truthful |
| Timers.TimerList.FindHeads | rt-thread/src/timer.c:339-367 | the descent through all rows, each search starting where the row above stopped, finds the place by true deadline exactly when its comparisons are truthful |
| Timers.TimerList.Start | rt-thread/src/timer.c:294-409 | uninterrupted: the bottom row becomes the old one without the timer, with the timer inserted behind equal deadlines; the rows stay sorted exactly when the search is truthful |
| Timers.TimerList.StartClear | rt-thread/src/timer.c:306-312 | first section of a start: the timer leaves every row and its flag is cleared |
| Timers.TimerList.StartStamp | rt-thread/src/timer.c:320-321 | between the sections: the deadline is now + init_tick modulo 2^32 at this moment, whenever the insertion follows |
| Timers.TimerList.StartInsert | rt-thread/src/timer.c:324-393 | second section, any number of ticks later: the timer will fire at its deadline or in the first check from now on, whichever is later; the rows stay sorted exactly when the search is truthful, the whole state exactly if the deadline is also not half the tick range ago |
| Timers.TimerList.Enqueue | rt-thread/src/timer.c:339-390 | whatever the distances are, the timer is put where the search leads; sorted exactly when the search is truthful |
| TimerRows.SearchesExact | rt-thread/src/timer.c:342-364 | while true distances are below 2^32, the search is truthful exactly when the timers it looks at lie in the window |
| TimerRows.FarTimerHarmless | rt-thread/src/timer.c:342-364 | a list with a timer outside the window into which an insertion is still right |
| TimerRows.Overtaken | rt-thread/src/timer.c:342-364 | a list in which a timer below the window makes an insertion wrong |
| Timers.TimerList.Calm | rt-thread/src/timer.c:294-393 | while no queued timer is overdue by more than two ticks, every start with an allowed delay is truthful |
| Timers.LateStart | rt-thread/src/timer.c:321-324 | a tick between stamp and insertion: a timer with a delay of one fires two ticks after the call |
| Timers.PreemptedStart | rt-thread/src/timer.c:321-324 | the same start with two ticks in it, while a timer with the longest delay is started: the list is no longer sorted |
| Timers.TimerList.Stop | rt-thread/src/timer.c:419-444 | uninterrupted: an active timer leaves every row; an inactive one is an error and changes nothing |
| Timers.TimerList.StopRemove | rt-thread/src/timer.c:431-436 | the section of a stop: the timer leaves every row, its flag still set |
| Timers.TimerList.StopClear | rt-thread/src/timer.c:439 | the store behind it: the state is right exactly when the timer is not queued again |
| Timers.FlagLost | rt-thread/src/timer.c:419-441 | a stop interrupted by a start of the same timer: queued without its flag |
| Timers.TimerList.Check | rt-thread/src/timer.c:488-546 | fires expired timers in the order of deadline and start and leaves only later ones; every timer ends as the last operation of a called timeout function left it, without one a called timer is queued for a period from now exactly if it is periodic and active, and all others are as they were; the loop ends because the set of expired timers shrinks |
| Timers.TimerList.Tick | rt-thread/src/clock.c:83-105 | across tick overflow and with starts and stops under way: a queued timer that no callback touches fires in the check of its own tick and in no other, and then as Check says |
| Timers.TimerList.Run | rt-thread/src/timer.c:488-546 | over any run of ticks, with timeout functions and threads that start and stop other timers: a periodic timer fires exactly at its due tick and every period after it, a one-shot timer once, a timer that is not queued never |
| Timers.TimerList.Callback | rt-thread/src/timer.c:517-518 | after a timeout function every timer is as the last operation on it left it: queued for its delay from now, off the list, or untouched |
| Timers.TimerList.Rearm | rt-thread/src/timer.c:525-536 | after its call a periodic timer that is still active is queued for a period from now, any other is switched off |
| Timers.DueShrinks | rt-thread/src/timer.c:501-540 | each round of the check strictly shrinks the set of expired timers |
| RingBuffer.PushBack | rt-thread/src/ipc.c:1500-1507 | storing at the input offset appends to the sequence the ring denotes |
| RingBuffer.PopFront | rt-thread/src/ipc.c:1647-1655 | advancing the output offset drops the first item of that sequence |
| RingBuffer.SlotSteps | rt-thread/src/ipc.c:1500-1507 | slots follow one another by increment and wrap, and after all of them comes the first again |
| Mailbox.Exchange | rt-thread/src/ipc.c:1408-1526 | a thread that takes a slot (or a mail) and resumes one counterpart keeps "sleepers imply no more units than resumed threads" on both sides |
| Mailbox.Mailbox.Send | rt-thread/src/ipc.c:1408-1526 | sends, blocks, refuses or fails under exact conditions; a sent mail is appended; the first receiver, and nobody else, is resumed |
| Mailbox.Mailbox.Receive | rt-thread/src/ipc.c:1555-1678 | delivers the oldest mail, blocks, refuses or fails under exact conditions; the first sender, and nobody else, is resumed and still has the mail it blocked with |
| Mailbox.Mailbox.Timeout | rt-thread/src/thread.c:694-715 | a timeout at any moment takes just that thread off its list and keeps the wake-up invariant |
| Mailbox.Mailbox.Reset | rt-thread/src/ipc.c:1690-1719 | exactly the sleepers fail, and the mailbox is empty |
| Mailbox.Mailbox.NobodyForgotten | rt-thread/src/ipc.c:1408-1678 | in every reachable state: receivers sleep only if mails do not outnumber resumed receivers, senders likewise for free slots; when nobody is resumed, sleepers mean really empty or really full |
| Mutex.Mutex.Take | rt-thread/src/ipc.c:642-762 | takes, nests, blocks or times out under exact conditions; a blocked thread leaves the owner at least as urgent; the invariant survives exactly unless the nesting wraps |
| Mutex.Mutex.Release | rt-thread/src/ipc.c:773-862 | only the owner can release; only its last release gives up ownership, restores the priority it had at acquisition and hands over to the first waiter |
| Mutex.Mutex.Handover | rt-thread/src/ipc.c:821-841 | the first waiter becomes the owner, and whether it leads the remaining waiters is decided by the queue order alone |
| Mutex.Mutex.NoInversion | rt-thread/src/ipc.c:642-862 | in every reachable state owner, value and hold agree, and with the priority flag no waiter is more urgent than the owner |
| Mutex.FifoInversion | rt-thread/src/ipc.c:642-862 | with the FIFO flag that fails: after three takes and a release the new owner is less urgent than a waiter |
| Mutex.HoldWraps | rt-thread/src/ipc.c:668-671 | a run of 256 takes by one thread: the nesting depth is zero and the mutex still owned |
| Mutex.Mutex.ChangePriority | rt-thread/src/thread.c:540-582 | a change of the priority of any thread: the invariant survives exactly when the owner is not less urgent than at its acquisition and, with the priority flag, still leads an ordered queue |
| Event.SendIsReceive | rt-thread/src/ipc.c:1031-1061 | the bits a sender computes for a satisfied waiter, and the flags it leaves, are those a receive call would yield |
| Event.FewerFlags | rt-thread/src/ipc.c:1026-1068 | clearing flags never satisfies a waiter that was not satisfied |
| Event.Meaning | rt-thread/src/ipc.c:1122-1153 | on the flag words: AND is satisfied when all its bits are set, OR when any is; the bits received are the wanted ones that are set; clearing takes the wanted ones away |
| Event.AskAllSettles | rt-thread/src/ipc.c:1026-1068 | after asking every waiter once in list order, nobody who still waits is satisfied, and nobody else changed |
| Event.EventFlags.Recv | rt-thread/src/ipc.c:1095-1203 | on the flag words: succeeds exactly when all (AND) or any (OR) of the wanted flags are set, returns the wanted flags that are set and clears the wanted ones if asked to; otherwise blocks or times out; an empty set is an error |
| Event.EventFlags.Send | rt-thread/src/ipc.c:1000-1079 | the wake-up loop leaves what results if the waiters had called receive one by one in list order; on the flag words, whoever was woken got all (AND) or some (OR) of its flags out of those set, cleared if it asked for that, and whoever still sleeps lacks one (AND) or all (OR) of its flags |
| Event.EventFlags.Asleep | rt-thread/src/ipc.c:1000-1203 | in every reachable state a waiter for all of its flags lacks one of them, and a waiter for any of them shares none with the event |
| Event.EventFlags.Walk | rt-thread/src/ipc.c:1024-1068 | the loop that unlinks while it walks equals the one-by-one outcome |
| Bitmap.FfsRight | rt-thread/src/kservice.c:1268-1282 | the table look-up by bytes returns the position of the lowest set bit of every 32-bit word |
| Bitmap.FlatHighest | rt-thread/src/scheduler.c:206-207 | find-first-set of the group word is the most urgent non-empty level |
| Bitmap.TwoLevelInsert | rt-thread/src/scheduler.c:298-301 | setting a bit in both levels adds that priority to the set the table denotes |
| Bitmap.TwoLevelRemove | rt-thread/src/scheduler.c:339-350 | clearing the lower bit, and the upper one only when its byte became zero, removes that priority |
| Bitmap.TwoLevelHighest | rt-thread/src/scheduler.c:209-212 | the two look-ups yield the most urgent of up to 256 priorities |
| Bitmap.TwoLevelIsFlat | rt-thread/src/scheduler.c:206-213 | over one set of ready priorities the two look-ups of the two-level index find what the one look-up of the flat index finds |
| Bitmap.TwoLevelDenotes | rt-thread/src/scheduler.c:298-301 | a priority is in the set exactly when both its group bit and its byte bit are set |
| RoundRobin.TurnComes | rt-thread/src/clock.c:83-105 | the thread at position i becomes head after exactly the remaining ticks of the threads before it and at no earlier tick, the list then rotated up to it |
| Scheduler.Kernel.InsertThread | rt-thread/src/scheduler.c:268-305 | the thread joins the end of its level's list; bits and lists agree afterwards exactly when it was on no ready list |
| Scheduler.Kernel.RemoveThread | rt-thread/src/scheduler.c:314-354 | the thread leaves whatever list it is on, ready, waiting or defunct, and its state is not changed; the level's bit goes exactly when the list becomes empty |
| Scheduler.Kernel.HighestReady | rt-thread/src/scheduler.c:204-218 | the bitmap's answer is the most urgent level whose list is not empty |
| Scheduler.Kernel.Schedule | rt-thread/src/scheduler.c:192-258 | unlocked, the head of the most urgent non-empty list becomes current; locked, nothing changes |
| Scheduler.Kernel.CreateThread | rt-thread/src/thread.c:132-200 | a new thread with its priority, which start-up will use, and its full time slice, on no list |
| Scheduler.Kernel.SuspendThread | rt-thread/src/thread.c:610-642 | under the caller's lock: only a ready thread can be suspended; it is then on no ready list and its timer is stopped |
| Scheduler.Kernel.SuspendSection | rt-thread/src/thread.c:627-638 | its locked part by itself, whatever happened since the test: suspended, off every list, be it the defunct one, and the whole state still right |
| Scheduler.Kernel.CreateList | rt-thread/src/ipc.c:73-79 | a new empty waiting list |
| Scheduler.Kernel.Park | rt-thread/src/ipc.c:92-135 | a suspended thread is linked into one waiting list |
| Scheduler.OnlyLeaves | rt-thread/include/rtservice.h:90-96 | when a thread is taken off its waiting list the others stay in their order, and the other lists as they are |
| Scheduler.Kernel.Resume | rt-thread/src/thread.c:652-687 | under the caller's lock: a suspended thread leaves its waiting list and becomes ready at the end of its level |
| Scheduler.Kernel.ResumeUnlink | rt-thread/src/thread.c:669-678 | first section of a resume without such a lock: off whatever list it is on, the defunct one included; index and state survive exactly when that was no ready list |
| Scheduler.Kernel.ResumeInsert | rt-thread/src/thread.c:680-681 | second section: the index survives exactly when the thread is on no ready list by then, the whole state exactly when it is on no other list and has no running timer either |
| Scheduler.ResumedTwice | rt-thread/src/thread.c:652-681 | a thread resumed between the two sections of another resume is on its ready list twice |
| Scheduler.Kernel.StartupBegin | rt-thread/src/thread.c:259-274 | initial priority and masks, then the suspended state; bits and lists agree |
| Scheduler.Kernel.Startup | rt-thread/src/thread.c:253-284 | a new thread becomes ready at the end of the level of its initial priority |
| Scheduler.Kernel.Timeout | rt-thread/src/thread.c:694-715 | the thread's running timer fires: off its waiting list, ready at the end of its level, then a reschedule |
| Scheduler.Kernel.ChangePriority | rt-thread/src/thread.c:540-582 | a ready thread moves to the end of its new level, even if its deletion had just taken it off; any other only changes its level; the index holds |
| Scheduler.Kernel.YieldSection | rt-thread/src/thread.c:438-456 | the section of a yield: the current thread goes behind its equals exactly if it is listed and has any, and only then is the scheduler called |
| Scheduler.Kernel.Yield | rt-thread/src/thread.c:433-467 | without interruption: the current thread goes behind its equals, if it has any, and the top thread runs |
| Scheduler.Kernel.TickSlice | rt-thread/src/clock.c:83-105 | a tick counts down the slice of the current thread; at zero it is refilled and the thread yields; slices stay in 1..init_tick |
| Scheduler.Kernel.RunTicks | rt-thread/src/clock.c:83-105 | any number of ticks does to the top list what the round-robin model says |
| Scheduler.Kernel.CloseBegin | rt-thread/src/thread.c:400-404 | first step of a deletion: off its ready or waiting list, still in its old state; the index holds for all others |
| Scheduler.Kernel.CloseTimer | rt-thread/src/thread.c:407 | second step: its timer is off |
| Scheduler.Kernel.CloseMark | rt-thread/src/thread.c:410 | third step, a bare store: the index survives exactly when the thread is on no ready list by then, the whole state exactly when it is on no wait list and has no running timer either |
| Scheduler.Kernel.CloseEnd | rt-thread/src/thread.c:412-419 | last step: onto the defunct list; the state survives exactly when the thread is still closed |
| Scheduler.Kernel.DeleteAmong | rt-thread/src/thread.c:393-422 | a deletion with any events in its two gaps: the index survives exactly when the thread, followed through the events, is on no ready list; then it is closed and on the defunct list once |
| Scheduler.Kernel.Interrupt | rt-thread/src/thread.c:253-715 | a tick, resume, start-up, change of priority or suspend does to a thread that is being deleted what the three-field summary says |
| Scheduler.LastRevival | rt-thread/src/thread.c:400-410 | for every sequence of events: the thread ends up on a ready list exactly when some event revives it and no suspend follows |
| Scheduler.NoStateIsSafe | rt-thread/src/thread.c:407-410 | for every state a thread may be deleted in, one event behind the end of its timer leaves it on a ready list |
| Scheduler.DeleteStruck | rt-thread/src/thread.c:400-410 | a run from start-up to a tick inside a deletion: a closed thread on a ready list |
| Scheduler.DeleteResumed | rt-thread/src/thread.c:407-410 | the same with a resume after the timer was stopped |
| Scheduler.SuspendedLate | rt-thread/src/thread.c:619-638 | a suspend that tested a ready thread and goes on after its closing: a suspended thread on the defunct list |
| Scheduler.Kernel.CloseUnderLock | rt-thread/src/thread.c:103-126 | the same steps in one section, as a thread exits: the index always survives |
| Scheduler.Kernel.Exit | rt-thread/src/thread.c:95-130 | with nothing between the section and the reschedule: the exiting thread is closed and, if scheduling is not locked, another one runs |
| Scheduler.Kernel.UnlockSection | rt-thread/src/scheduler.c:385-400 | the section of an unlock: one level less, and the scheduler is called exactly at the last |
| Scheduler.Kernel.ExitCritical | rt-thread/src/scheduler.c:380-403 | without interruption: leaving the outermost critical section reschedules |
| PageRuns.InOneRun | rt-thread/src/slab.c:246-280 | consecutive free pages always lie in one run: a failed search means there is no fitting range |
| PageRuns.CanonicalUnique | rt-thread/src/slab.c:282-332 | the sorted, fully merged list is determined by the set of free pages |
| PageRuns.TakePart | rt-thread/src/slab.c:258-266 | taking the front of a run removes exactly those pages and keeps the list sorted and merged |
| PageRuns.Bridge | rt-thread/src/slab.c:301-310 | filling the gap between two runs makes one run of them and adds exactly those pages |
| PageRuns.InsertRun | rt-thread/src/slab.c:325-327 | a range that touches nothing becomes a run of its own |
| Pages.PageAllocator.constructor | rt-thread/src/slab.c:337-344 | the allocator starts with one run |
| Pages.PageAllocator.Alloc | rt-thread/src/slab.c:246-280 | returns the lowest n consecutive free pages, null exactly for n = 0 or if there are none; removes exactly these pages; writes only into pages that stay free |
| Pages.PageAllocator.Free | rt-thread/src/slab.c:282-332 | adds exactly the given pages, merged with touching neighbours; writes only into free pages |
| Pages.PageAllocator.EverythingBack | rt-thread/src/slab.c:246-344 | once every page taken from the allocator came back, over its whole history, in any order and in any pieces, its list is the one it began with |
| SlabSizes.ZoneIndex | rt-thread/src/slab.c:411-469 | the class is the smallest one that holds the request and the size becomes exactly that class's size, at all bracket borders |
| SlabSizes.ZoneHasRoom | rt-thread/src/slab.c:640-655 | a zone holds its header and at least two chunks of every class it can serve |
| SlabSizes.ChunkAligned | rt-thread/src/slab.c:643-656 | chunks of power-of-two sizes up to a page lie on multiples of their size |
| SlabZones.TakeNew | rt-thread/src/slab.c:571-575 | handing out a never-used chunk keeps the books of the zone |
| SlabZones.TakeOld | rt-thread/src/slab.c:576-583 | with all chunks used once, a positive nfree means the free list has a chunk, which is not live |
| SlabZones.Put | rt-thread/src/slab.c:861-873 | a live chunk goes to the front of the free list, which stays a list of distinct free chunks |
| SlabZones.FindZone | rt-thread/src/slab.c:826-858 | from any chunk's address the usage table leads to the zone that holds it |
| SlabZones.BlocksApart | rt-thread/src/slab.c:488-671 | no two live blocks overlap, be they chunks of one zone, of two zones, or large blocks |
| SlabSteps.StepTake | rt-thread/src/slab.c:554-583 | taking a chunk, and unlisting a zone that has no more, keeps the whole invariant and adds one block |
| SlabSteps.StepGrow | rt-thread/src/slab.c:616-664 | setting up a zone on new pages keeps the whole invariant and adds one block |
| SlabSteps.StepRetire | rt-thread/src/slab.c:885-905 | moving a wholly free zone to the reserve keeps the invariant and all blocks |
| SlabSteps.StepRelease | rt-thread/src/slab.c:907-928 | returning a reserve zone's pages keeps the invariant and all blocks |
| Slab.ZoneSizeFor | rt-thread/src/slab.c:384-387 | the zone size is 32, 64 or 128 KB, doubled exactly while twice the size stays below the heap's size in KB |
| Slab.SlabHeap.constructor | rt-thread/src/slab.c:354-405 | a heap with nothing in use and a zone size by the size of the heap; the page usage table always fits |
| Slab.SlabHeap.Malloc | rt-thread/src/slab.c:488-684 | the block is at least as large as asked, overlaps no block in use, and all others stay; null, with nothing changed, exactly for size zero or when its class, the reserve and the pages are exhausted |
| Slab.SlabHeap.Free | rt-thread/src/slab.c:793-935 | the block at the address, found through the usage table, and no other stops being in use; the zone of a chunk is retired exactly when it became wholly free and its class has another listed zone, and released exactly when two zones are in reserve already |
| Slab.SlabHeap.TakeChunk | rt-thread/src/slab.c:554-583 | the first zone of the class gives a chunk: never-used ones in order first, then the one freed last |
| Slab.SlabHeap.NewZone | rt-thread/src/slab.c:592-671 | a reserve zone is set up anew before any pages are asked for; null, with nothing changed, exactly when there is neither |
| Slab.SlabHeap.FreeChunk | rt-thread/src/slab.c:853-932 | the zone is retired exactly when it became wholly free and its class has another listed zone; it goes into the reserve while that holds fewer than two, else its pages are returned |
| Slab.SlabHeap.ReleaseZone | rt-thread/src/slab.c:908-931 | beyond the threshold one zone goes: its pages are marked free and returned, and no block in use changes |
| Slab.SlabHeap.ZoneBooks | rt-thread/src/slab.c:554-583 | in every reachable state nfree is never-used chunks plus free-list length, every used index is live or on the free list, and a zone is on its class's list exactly while it has free chunks |
| Slab.SlabHeap.InUse | rt-thread/src/slab.c:488-671 | in every reachable state blocks in use overlap neither each other nor any free page |
| Slab.SlabHeap.Aligned | rt-thread/src/slab.c:643-656 | in every reachable state power-of-two blocks up to a page are aligned to their size |
| Fmq.Conserved | esp-idf-port/stubs/fmq.c:262-364 | over every run of sends to either end, overwrites, receives and peeks, accepted = queued + received + overwritten, and the bound holds |
| Fmq.FirstInFirstOut | esp-idf-port/stubs/fmq.c:262-364 | with sends to the back only, items are received in the order of acceptance |
| Fmq.FrontIsNext | esp-idf-port/stubs/fmq.c:353-362 | after any run, an item sent to the front is received next, and the queue is then as it was |
| Fmq.OverwriteIsNext | esp-idf-port/stubs/fmq.c:347-352 | after any run that leaves the queue not empty, an overwriting item takes the place of the first one, which is lost, and is received next |
| Fmq.BackIsLast | esp-idf-port/stubs/fmq.c:335-343 | an item sent to the back goes behind everything queued |
| Fmq.SlotWritten | esp-idf-port/stubs/fmq.c:332-338 | writing item bytes at offset times item size replaces that slot and no other |
| Fmq.Queue.constructor | esp-idf-port/stubs/fmq.c:155-191 | an empty queue over a pool of size times item bytes |
| Fmq.Queue.Send | esp-idf-port/stubs/fmq.c:242-383 | refused or blocked exactly when full and not overwriting; otherwise the deque step, and the first receiver is resumed |
| Fmq.Queue.Store | esp-idf-port/stubs/fmq.c:332-364 | in = out + entry modulo size is kept; the contents change as the deque does: append, prepend or replace the first |
| Fmq.Queue.Recv | esp-idf-port/stubs/fmq.c:396-531 | returns the first item; a peek changes nothing; otherwise it is removed and the first sender is resumed |
| Fmq.Queue.Timeout | esp-idf-port/stubs/fmq.c:242-383 | a blocked thread leaves the list it sleeps on; the contents stay |
| Fmq.Queue.ReturnError | esp-idf-port/stubs/fmq.c:313-317 | a thread that timed out returns its error and leaves the queue as it is |
| DhcpPool.NetOrder | esp-idf-port/wlan/dhcpserver.c:138-206 | comparing network-order words as the CPU sees them is comparing addresses, within a /24 |
| DhcpPool.SkipIsNextFree | esp-idf-port/wlan/dhcpserver.c:755-773 | over a sorted list the pointer's walk ends at the least free address from its start |
| DhcpPool.GapIsNextFree | esp-idf-port/wlan/dhcpserver.c:775-783 | the search for the first unused address finds the least free address of the pool |
| DhcpPool.PickInPool | esp-idf-port/wlan/dhcpserver.c:750-797 | with a pool ending below .255 the chosen address is free and in the pool, or the pool is full |
| DhcpPool.PickRight | esp-idf-port/wlan/dhcpserver.c:750-797 | with any pool: exactly when the choice is right |
| DhcpPool.EscapeExample | esp-idf-port/wlan/dhcpserver.c:788-796 | a pool of one address, x.y.4.255, gives the second station x.y.5.0 |
| Dhcp.PollSet | esp-idf-port/wlan/dhcpserver.c:996-1039 | a configured pool is kept exactly when it fits (same /24, without the server, at most 101 addresses); the default is the hundred addresses right above the server, or from a hundred below it when it lies in the upper half, and excludes the server |
| Dhcp.Server.Scan | esp-idf-port/wlan/dhcpserver.c:754-785 | one pass finds the station's lease, or that it has none, with the pointer and the first gap |
| Dhcp.Server.Insert | esp-idf-port/wlan/dhcpserver.c:138-172 | the lease goes to its place in address order |
| Dhcp.Server.Handle | esp-idf-port/wlan/dhcpserver.c:734-861 | leases stay sorted with unique addresses and stations, in the pool, never the server's; a known station keeps its address; an unknown one is refused exactly when the pool is full; offers and acknowledgements name an address leased to that station; a discover is offered, a request acknowledged exactly if it names the station's own address or, naming none, comes from its own lease |
| Dhcp.Server.CoarseTimer | esp-idf-port/wlan/dhcpserver.c:1157-1186 | every lease ages by one, those at zero go, and with eight or more left one is evicted; the invariant holds |
| Dhcp.Server.KillOldest | esp-idf-port/wlan/dhcpserver.c:1121-1149 | the first of the shortest remaining times behind the first lease is removed |
| Dhcp.OldestOfAll | esp-idf-port/wlan/dhcpserver.c:1121-1149 | the evicted lease is the oldest of all exactly when some lease behind the first has no more time left than the first |
| Dhcp.OldestSpared | esp-idf-port/wlan/dhcpserver.c:1121-1186 | a run of eight joining stations and the timer in which it is not |
| Romfs.BinData | rt-thread/tools/mkromfs.py:150-199 | the loop with its running address emits exactly the entries and payloads of the layout |
| Romfs.NameBack | rt-thread/tools/mkromfs.py:31-36 | a padded NUL-free name reads back as a C string |
| Romfs.EntryBack | rt-thread/tools/mkromfs.py:164-197 | reading an entry of an image by its absolute addresses gives back the node it was made from |
| Romfs.RoundTrip | rt-thread/tools/mkromfs.py:218-229 | following addresses from the root entry gives the tree back exactly, for every finite tree whose names are NUL-free, and for no other |
| Romfs.RegionsLaid | rt-thread/tools/mkromfs.py:164-197 | on a 4-aligned base all entry tables, names and file contents below a folder are aligned, disjoint and inside the folder's bytes |
| Romfs.ImageLaid | rt-thread/tools/mkromfs.py:218-229 | the same for the whole image, with the root entry and the root name |
| Romfs.LaidApart | rt-thread/tools/mkromfs.py:164-197 | what that means for any two regions |

## Left out

- Semaphores and memory pools: their lists and counters are simpler forms of the mailbox's and the slab's, so they would
  only add easy members.
- Soft timers: the list cursor is kept across an unlocked callback. The hard list is modelled, with callbacks that may
  start and stop other timers but not restart their own.
- `rt_tick_set`, object containers and names, hooks, debug output, the `RT_USING_MODULE` paths and module loading.
- Context switching, stacks, interrupt nesting and stack checks: a critical section is one atomic step.
- Timers of blocked threads: a timeout may strike a waiting thread at any moment, so the remaining time is a parameter.
- The heap semaphores of memheap and slab: each call is atomic, except for a moving `rt_memheap_realloc`, which releases
  the lock (`MemHeap.MemHeap.MoveAmong`); other threads' writes into their own blocks during the move are not steps.
- Two threads inside `rt_timer_start`, or two inside `rt_timer_stop`, of the same timer at once.
- Two threads deleting the same thread at once, and deleting the idle thread.
- Mutexes held in nested fashion by one thread, and resuming an IPC waiter from outside.
- `rt_realloc` and `rt_calloc` of the slab allocator: the model tracks which bytes a block owns, not what they contain.
- The chunk link words and zone headers of the slab allocator are maps of their own; that they never overlap a live block
  is `Slab.SlabHeap.InUse` and the position of the first chunk behind the header.
- Power-of-two alignment of chunks above the page size.
- fmq's wake-ups: a peek uses up a wake-up without taking an item, so no claim like the mailbox's is made.
- DHCP packets: building replies, copying buffers and walking option bytes. The message type, hardware address, ciaddr and
  requested address are inputs; the lease list is a sequence, so the nodes' memory is not modelled.
- The order in which mkromfs sorts a directory, its C output, and names that are not byte strings; a value that does not
  fit into 32 bits makes the tool fail, so images end below 4 GB.
- Device drivers, the port's start-up code, the finsh shell, the file systems' readers and the network stack.
- MemHeap.MemHeap.Alloc: the request plus alignment must not wrap in 32 bits, which the rounding macro does not check.
- Mutex.Mutex.Take: the invariant is promised up to 255 nested takes, which is exactly where the counter wraps.
- Dhcp.Server.Handle: the pool ends below .255; for other pools `DhcpPool.PickRight` says when a single choice is right.
- Timers.TimerList.Check: as `Timers.TimerList.Tick`.
- Timers.TimerList.Run: starts and stops by threads fall between two ticks as a whole; for a start with ticks in it
  `Timers.TimerList.StartInsert` has the fire tick.
- Timers.TimerList.Tick: timeout functions start timers with a delay of at least one tick (with none, the same check would
  fire them) and up to a horizon, which periods do not exceed either, and no queued deadline
  lies so far back that such a start could compare wrongly; `Timers.TimerList.Calm` says when that is no restriction.
- Scheduler.Kernel.Resume: as one step, for the callers that hold a lock, which those in `ipc.c` do.
- Scheduler.Kernel.DeleteAmong: each event in a gap is an operation without interruption; for single sections of other
  operations `Scheduler.Kernel.CloseMark` has the exact condition.
- Scheduler.Kernel.SuspendSection: for threads that have been started, as the test before it ensures, and not the idle
  thread.
- Scheduler.Kernel.Exit: the exiting thread is not at the same time being deleted by another one.
- Bitmap.TwoLevelIsFlat: on sets that a flat index can hold, which are those of priorities below 32.
- Timers.TimerList.Create: delays are below RT_TICK_MAX/2 as the code asserts, and periods are at least one tick.
- Fmq.Queue.Send: one pass of the retry loop; a thread that blocked calls again when it is resumed.
