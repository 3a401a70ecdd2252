# Verified model of the reactor web server

This project models, in Dafny, the parts of the server that are hard to get right, and proves what they are relied on for.
`dafny verify dfyconfig.toml` checks all of it.

| file | models |
|---|---|
| `LinkedMemory.dfy` | link words in raw memory, shared by the two allocators |
| `SemiLockFreeSlabAllocator.dfy` | the compare-and-swap free list with tags |
| `ThreadLocalSlabAllocator.dfy` | per-thread free lists and the central pool of whole chunks |
| `SpscLockFreeQueue.dfy` | the single-producer single-consumer queue that publishes a node in two steps |
| `BlockingQueue.dfy` | the bounded queue with its two condition variables |
| `EventLoopWakeup.dfy` | functor queues, eventfds and "pilot lamps" that suppress redundant writes |
| `LogCollector.dfy` | loggers and the background thread passing buffers through four slots |
| `Timer.dfy`, `TimerContainer.dfy`, `EventLoopTimers.dfy` | periodic timers, the ordered set, and the lazily moved kernel alarm |
| `TimerLedger.dfy` | how often the event loop runs each timer's callback, over whole runs |
| `TcpBuffer.dfy` | the byte buffer that grows, compacts and is searched for line ends |
| `HttpRequest.dfy`, `HttpParser.dfy`, `HttpResponse.dfy` | the line grammars, the resumable parser, and printing |
| `TcpConnectSocketfd.dfy` | the output side of a connection |
| `Wrappers.dfy` | what several modules share |
| `Format.dfy`, `LogBuilder.dfy` | decimal and hexadecimal text, and guarded writes into a log entry |

## How the code is rendered

Concurrent protocols (the allocators, the queues, the wake-up protocol, the log collector) are state machines: one action for each
atomic load, compare-and-swap, store, system call or critical section, by any number of threads, and an invariant over all
interleavings.  The steps are sequentially consistent.  Owners of a slab may overwrite it at any time, and a slab may be handed from
one thread to another.  Sequential code that changes things in place is a class whose methods are specified by functions on values;
the properties are then proved of those functions, over whole runs where that is the point.

What callers pass in and get back is part of the results: the histories that the properties speak of are, over every run, the
arguments of the actions (`SpscLockFreeQueue.PoppedThenPendingIsPushed`, `EventLoopWakeup.HistoryIsWhatWasAsked`,
`LogCollector.TakenIsWhatWasGiven`), and no thread is ever stuck: each can always go on to the end of its call, which has then done
what it is for (`FinishesAlone`, `CallsAreWaitFree`, `AllocateAlone`, `PopReturnsOldest`, `TurnEnds`, `CycleEnds` and the like).

Choices made where the code leaves something to its environment:

- The tag of the free list's head is unbounded; the number of slabs in a chunk is any `n >= 1` instead of 4000.
- The alarm and the eventfds are watched edge-triggered, as `PollableFileDescriptor` sets them up by default. An eventfd is a
  counter, a timerfd an optional alarm time with an expired flag. The clock never goes back.
- The kernel answers a `send` by taking a prefix, or by refusing because it is full, because the pipe is broken, or for another
  reason. The answers to one call are a finite script; when it ends, the kernel is full. After the write end is shut down it
  answers with a broken pipe.
- `memcpy` in the compaction of the buffer (`src/tcp_buffer.cc:52-56`) moves overlapping ranges correctly.
- A string that needs more capacity gets the larger of what it needs and twice what it had, starting at 15.
- The parser is proved with the two searches for a space (`example/http/server/src/http_request.cc:30-31` and `56-57`) stopping at
  the end of the line. As written they can run past it; the next section says exactly what then becomes of a request line.
- The iteration order of a hash table is an arbitrary permutation of its keys.

## What the code does not do

Results that differ from what one would expect, each with its exact condition:

- `set_body(StringType &&)` measures the body after moving from it, so Content-Length is 0 and a message reads back only if its body
  is empty (`HttpResponse.SetBodyRoundTrip`).
- Setting the alarm for time zero disarms the timerfd. A new timer brings that about exactly when it is due at zero and the alarm in
  force is more than the threshold later (`EventLoopTimers.AddSetsZeroAlarm`); neither it nor a timer added after it is then covered,
  unless the turn of the loop in which that happens has seen the timerfd fire (`EventLoopTimers.AddIsCovered`). While that alarm is
  in force a loop about to block has forgotten its timers, and otherwise it never has (`EventLoopTimers.NoForgottenTimer`).
  `EventLoopTimers.ZeroTimeStarvesOthers` starts from a loop that holds only its own timer. A negative time is refused by the
  kernel, which aborts the program; the same lemma says when.
- A timer cancelled from a callback of the expiry that has taken it out of the container is not cancelled
  (`EventLoopTimers.CancelInFlightHasNoEffect`): afterwards it waits again if and only if it has repetitions left
  (`EventLoopTimers.ExpiryOutcome`).
- A functor that calls `invoke_all_functors` on its own loop runs what was pushed meanwhile before the rest of its batch. The order
  of a queue is kept if and only if no such drain took functors of a queue with a batch unfinished
  (`EventLoopWakeup.FunctorsRunInOrder`, with a witness in `EventLoopWakeup.NestedDrainOvertakes`); with the lock-free queue it
  always is (`EventLoopWakeup.OneAtATimeIsInOrder`).
- The two searches for a space in a request line measure their window from the start of the line. If a method and a path but no
  further space are there, and a space follows within as many bytes behind the line as the path is from its start, the end found
  for the path lies behind the line and building the version string throws `std::length_error`; that is exactly when the parse
  throws. Otherwise the window changes nothing but the method type of a line that is refused anyway
  (`HttpRequest.WrittenParseAgrees`, with a witness in `HttpRequest.OverrunThrows`).
- Cancelling the only timer in the container removes it without deleting it (`EventLoopTimers.CancelFreesUnlessLast`).
- The smallest value of a signed type is written as a minus sign and one character that is no digit
  (`Format.ConversionRoundTrip`).
- A thread's free count is not always below its cut-off threshold: it equals it during a cut, and for a thread that has carved
  nothing after it has mounted a chunk from the central pool. `ThreadLocalSlabAllocator.StrandingIsBounded` says exactly when, and
  `ThreadLocalSlabAllocator.ThresholdIsReached` shows both; the bound on all counts together holds always.

Where code and documentation differ the model follows the code: field names are compared case-sensitively, although
`http_request.h` quotes section 3.2 of RFC 7230 that they are not; blanks between a field name and its colon are accepted, which
section 3.2.4 of RFC 7230 forbids; a negative Content-Length is cast to a huge unsigned one; the alarm threshold is called seconds
but used as nanoseconds.

## Model

| member | source | states |
|---|---|---|
| SemiLockFreeSlabAllocator.EverySlabHasOnePlace | include/util/slab_allocator.h:219-353 | in every reachable state the free list is null-terminated and acyclic, and every slab carved is on it, owned by one thread, or in one thread's unfinished push or carve, and in no second place |
| SemiLockFreeSlabAllocator.DereferencesAreSafe | include/util/slab_allocator.h:224-241 | no interleaving makes a thread follow null or an address outside the chunks, although owners overwrite links |
| SemiLockFreeSlabAllocator.PopIsExact | include/util/slab_allocator.h:228-243 | a pop whose swap succeeds installs the true current successor and hands out a slab nobody holds |
| SemiLockFreeSlabAllocator.LosingMeansSomeoneWon | include/util/slab_allocator.h:239-241 | a swap that fails for a real reason lost to another thread's success since the snapshot |
| SemiLockFreeSlabAllocator.UnchangedTagMeansUnchangedList | include/util/slab_allocator.h:224-241 | along any run the tag never falls, and if it is what it was then head, chain and the head's link are too, whatever owners wrote |
| SemiLockFreeSlabAllocator.InvStep | include/util/slab_allocator.h:219-353 | each atomic step of allocate, deallocate and chunk carve keeps the invariant |
| SemiLockFreeSlabAllocator.WritesAreExclusive | include/util/slab_allocator.h:265-268 | a link is only ever written by the one thread that holds its slab |
| SemiLockFreeSlabAllocator.FinishesAlone | include/util/slab_allocator.h:219-353 | obstruction freedom: from every reachable state each thread, left alone, ends its call within n + 5 steps, having pushed its slab or got one more |
| SemiLockFreeSlabAllocator.AllocateAlone | include/util/slab_allocator.h:219-246 | an allocation left alone takes the head of the free list and leaves its successor as head, or with none there carves exactly one chunk; it hands out one slab the thread did not own |
| SemiLockFreeSlabAllocator.DeallocateAlone | include/util/slab_allocator.h:248-274 | a deallocation left alone takes three steps, after which the slab is the head, linked to the old one, and no longer owned |
| SemiLockFreeSlabAllocator.NextActionIsForced | include/util/slab_allocator.h:219-353 | inside a call a thread has one action to do next, and only one that saw an empty list carves |
| ThreadLocalSlabAllocator.SlabsAreConserved | include/util/slab_allocator.h:751-839 | slabs carved = local free + n for each central entry + chunks in transit + in use, over all runs |
| ThreadLocalSlabAllocator.CounterIsListLength | include/util/slab_allocator.h:757-839 | a thread's counter is the length of its acyclic null-terminated free list; while carving the list has the slabs linked so far and the counter is still 0, and between cut and publication the counter is n more |
| ThreadLocalSlabAllocator.EntryIsWholeChunk | include/util/slab_allocator.h:812-838 | each central entry is a chain of exactly n distinct slabs from chunk_head to chunk_tail |
| ThreadLocalSlabAllocator.EverySlabHasOnePlace | include/util/slab_allocator.h:751-880 | every slab is in exactly one place, so no slab has two owners |
| ThreadLocalSlabAllocator.DereferencesAreSafe | include/util/slab_allocator.h:813-826 | no step follows a bad pointer; in particular the n - 1 hops never run off the list |
| ThreadLocalSlabAllocator.StrandingIsBounded | include/util/slab_allocator.h:757-783 | the counters together never exceed n for each chunk carved, so k local lists strand fewer than n * (chunks + k) slabs; each counter is at most its threshold n * (1 + own chunks), and equal to it exactly in a cut or behind a mount by a thread that carved nothing |
| ThreadLocalSlabAllocator.CountersAreExact | include/util/slab_allocator.h:751-839 | counters + slabs in use + n for each chunk in the central pool or taken from it and not mounted = n for each chunk carved |
| ThreadLocalSlabAllocator.ThresholdIsReached | include/util/slab_allocator.h:809-834 | both exceptions occur in reachable states |
| ThreadLocalSlabAllocator.PlacedStep | include/util/slab_allocator.h:751-839 | a step moves exactly the slabs it means to move and leaves every other where it was |
| ThreadLocalSlabAllocator.CallsAreWaitFree | include/util/slab_allocator.h:751-839 | in any run the steps of a call are bounded by where the thread is in it, whatever the others do, and the next is always possible |
| ThreadLocalSlabAllocator.AllocateAlone | include/util/slab_allocator.h:751-792 | an allocation takes from the own list if it has a slab, else mounts a chunk of the central pool if there is one, and only else carves memory; it hands out one slab the thread did not own |
| ThreadLocalSlabAllocator.DeallocateAlone | include/util/slab_allocator.h:794-839 | a deallocation adds the slab to the own list, and if the counter then reaches the threshold moves one chunk to the central pool |
| ThreadLocalSlabAllocator.NextActionIsForced | include/util/slab_allocator.h:751-839 | inside a call a thread has one action to do next, and only one that found the central pool empty carves |
| SpscLockFreeQueue.PoppedThenPendingIsPushed | include/util/lock_free_queue.h:95-160 | in every interleaving the arguments of push, in order, are the popped values, the one in the consumer's hand, those in published nodes and that of a push in progress |
| SpscLockFreeQueue.PopReturnsOldest | include/util/lock_free_queue.h:133-160 | a pop, whatever the producer does meanwhile, returns the oldest value pushed and not popped |
| SpscLockFreeQueue.PushPublishes | include/util/lock_free_queue.h:95-160 | a push, whatever the consumer does meanwhile, ends with its argument as the newest published value |
| SpscLockFreeQueue.NobodyIsStuck | include/util/lock_free_queue.h:95-160 | each side always has exactly one action to do next, and it is possible |
| SpscLockFreeQueue.NeverTouchesFreedNode | include/util/lock_free_queue.h:133-160 | neither side touches a node after it was deleted, and only live nodes are deleted |
| SpscLockFreeQueue.EmptyMeansDrained | include/util/lock_free_queue.h:134-138 | a pop finds nothing exactly when everything published has been popped |
| SpscLockFreeQueue.OneNodePerQueuedValue | include/util/lock_free_queue.h:133-160 | nothing leaks: at rest the live nodes are the dummy head and one for each queued value |
| SpscLockFreeQueue.Destroy | include/util/lock_free_queue.h:80-93 | the destructor deletes each node of the chain once and leaves none |
| BlockingQueue.BoundedFifo | src/util/blocking_queue.cc:28-92 | every element leaves once, in the order it came, and the queue never outgrows its capacity |
| BlockingQueue.SleepersHaveNothingToDo | src/util/blocking_queue.cc:28-92 | no lost notification: with none on its way, producers sleep only at a full queue and consumers only at an empty one |
| BlockingQueue.StepKeepsInv | src/util/blocking_queue.cc:28-92 | while somebody sleeps, what they wait for is matched by threads awake or about to notify, whatever the next step |
| BlockingQueue.PushAppends | src/util/blocking_queue.cc:28-48 | a push appends its element exactly when fewer than capacity are queued, and else sleeps and changes nothing |
| BlockingQueue.PopTakesOldest | src/util/blocking_queue.cc:50-77 | a pop takes the oldest element not popped, and sleeps exactly when there is none |
| BlockingQueue.PopAllTakesAll | src/util/blocking_queue.cc:79-92 | pop_all takes everything pushed and not popped |
| BlockingQueue.NotificationsSettle | src/util/blocking_queue.cc:28-92 | pending notifications can always be sent, and then nobody sleeps with something to do unless another thread of that kind is awake |
| BlockingQueue.EveryCallIsAccountedFor | src/util/blocking_queue.cc:28-92 | over any run, calls begun are calls finished plus threads inside, and notifications owed are sent or about to be |
| EventLoopWakeup.NoLostWakeup | src/event_loop.cc:230-306 | when the loop is about to block with work or a stop request it has not seen, that eventfd is readable and unreported, or some caller has its write still to do |
| EventLoopWakeup.FinishedCallsWakeTheLoop | src/event_loop.cc:244-269 | once all calls have returned, poll reports the eventfd of every non-empty queue |
| EventLoopWakeup.BlockedMeansDrained | src/event_loop.cc:76-124 | a loop that stays blocked has run everything pushed, once each, and missed no stop request |
| EventLoopWakeup.EveryWriteIsReadOnce | src/event_loop.cc:29-36 | the lamps do suppress writes: a counter never exceeds one and no read finds zero |
| EventLoopWakeup.FunctorsRunInOrder | src/event_loop.cc:271-306 | functors run in their queue's order if and only if no drain from within a callback took functors of a queue that had a batch unfinished |
| EventLoopWakeup.EachFunctorRunsOnce | src/event_loop.cc:271-306 | every functor taken out of a queue is run once unless its batch still has it, and all are when no batch is open |
| EventLoopWakeup.OneAtATimeIsInOrder | src/event_loop.cc:290-304 | with the queue that gives out one functor at a time the order always holds |
| EventLoopWakeup.NestedDrainOvertakes | include/event_loop.h:75-82 | a reachable run in which functors pushed as 1, 2, 3 run as 1, 3, 2 |
| EventLoopWakeup.TicketsStep | src/event_loop.cc:271-306 | taking a batch, starting a functor and ending a batch keep each functor in one place |
| EventLoopWakeup.HistoryIsWhatWasAsked | src/event_loop.cc:230-256 | over any run a queue's history is what callers pushed to it, in order, and the stop flag is up if and only if somebody asked to stop |
| EventLoopWakeup.LeavesOnlyWhenAsked | src/event_loop.cc:76-92 | a loop in its last drain or out was asked to stop |
| EventLoopWakeup.StopIsFinal | src/event_loop.cc:76-97 | a check that finds the flag up and the poller empty is the last: no poll follows in any run; any other check leads to a poll |
| EventLoopWakeup.StoppedLoopExits | src/event_loop.cc:76-92 | a loop with an empty poller that is asked to stop at its check gets out by itself |
| EventLoopWakeup.DrainRunsWhatWasThere | src/event_loop.cc:271-306 | a drain, the last one included, has run once each everything that was pushed to a queue before it reached that queue |
| EventLoopWakeup.DrainsWhenReported | src/event_loop.cc:97-124 | at the end of a turn the loop drains its queues if and only if an eventfd was reported in that turn, whatever callbacks did |
| EventLoopWakeup.TurnEnds | src/event_loop.cc:58-140 | from every reachable state but a poll the loop alone gets back to its check, or out, with all batches run |
| EventLoopWakeup.CallEnds | src/event_loop.cc:244-269 | a call that has pushed ends within two more steps of its own, with the lamp lit |
| LogCollector.NeverReachesTheThrows | src/log_collector.cc:43-60 | the spare is there exactly when the full list is empty, both throws are unreachable, no null buffer is followed, two buffers can always be recycled |
| LogCollector.EntriesAreConserved | src/log_collector.cc:102-216 | past batches, the present batch, the full list and the current buffer hold the entries in lock order, and every other line among them is a whole flush mark |
| LogCollector.FileHoldsAllButCountedDrops | src/log_collector.cc:166-195 | the file holds every batch whole but for the buffers past the sixteenth, whose number the notice before the batch tells |
| LogCollector.NoDropsMeansNothingMissing | src/log_collector.cc:166-195 | without drops the file is everything the batches carried |
| LogCollector.ExitLeavesNothingBehind | src/log_collector.cc:111-124 | when the thread exits, everything taken before is in the file or was counted as dropped |
| LogCollector.InvStep | src/log_collector.cc:43-216 | each critical section and each step of the background thread keeps slots, file and stream consistent |
| LogCollector.TakenIsWhatWasGiven | src/log_collector.cc:43-62 | over any run what was taken is what loggers gave, in the order admitted; a stop is wanted if and only if one was asked for, and only then does the thread exit |
| LogCollector.EntryIsKeptWhole | src/log_collector.cc:50-60 | an entry goes whole into the current buffer if it leaves a byte to spare, and else whole into the spare or a new one, the old one being full |
| LogCollector.WhatIsDecided | src/log_collector.cc:103-143 | the background thread takes a batch, waits, exits, serves a flush or starts over in exactly the cases of the code |
| LogCollector.CycleWritesBatch | src/log_collector.cc:143-216 | a cycle, whatever loggers do meanwhile, adds to the file the notice if there are more than 16 buffers and then the first 16, the full ones and the current one, whole and in order |
| LogCollector.CycleEnds | src/log_collector.cc:166-216 | the background thread by itself gets from any point of a cycle back to the top of its loop |
| LogCollector.FlushIsServed | src/log_collector.cc:126-143 | once the flag of a flush request is down, everything taken before the request has been collected for writing |
| Timer.NewTimer | src/timer.cc:6-17 | any arguments make a timer with a non-negative interval and -1 or more repetitions left |
| Timer.ExpiredUntil | src/timer.cc:63-79 | expiry at a time terminates, and a timer that stays valid is due strictly later |
| Timer.ExpiredUntilCounts | src/timer.cc:31-79 | in closed form the runs, the next expiration, the repetitions left, and validity exactly when repetitions remain |
| Timer.ExpiringEarlierIsNoLoss | src/timer.cc:63-79 | expiring early and again late runs the callback as often as expiring late |
| Timer.PollScheduleIndependence | src/timer.cc:31-79 | after any non-decreasing expiry times ending at t the callback has run min(n + 1, floor((t - e) / I) + 1) times, uncapped for endless repetition |
| Timer.CallbackRuns | src/timer.cc:6-79 | for any constructor arguments and any expiry times ending at t the callback runs 0, 1, floor((t - e) / I) + 1 or min(n, floor((t - e) / I)) + 1 times: before e, without interval, endless, and otherwise |
| Timer.Timer.constructor | src/timer.cc:6-17 | stores the clamped interval and repetitions |
| Timer.Timer.ExpireOnce | src/timer.cc:31-61 | runs the callback once and moves the timer on if it may |
| Timer.Timer.ExpireUntil | src/timer.cc:63-79 | the loop runs the callback as often as is due within the limit |
| TimerContainer.LowerBound | src/timer_container.cc:35-37 | splits the set into entries before and not before a pair |
| TimerContainer.DueAreTakenInOrder | src/timer_container.cc:29-49 | what is moved out is exactly what is due, in order; the rest is due later |
| TimerContainer.EarliestIsLeast | include/timer_container.h:18-20 | the first entry is the earliest of all |
| TimerContainer.SortedIsUnique | include/timer_container.h:42-42 | the sequence is determined by its elements, so insertion and removal are too |
| TimerContainer.Inserted | src/timer_container.cc:5-9 | insertion keeps the order and adds that entry only |
| TimerContainer.Removed | src/timer_container.cc:20-27 | removal keeps the order and takes that entry only |
| TimerContainer.TimerContainer.GetEarliestExpirationTimePoint | include/timer_container.h:18-20 | the least time, or FOREVER |
| TimerContainer.TimerContainer.InsertOne | src/timer_container.cc:5-9 | afterwards exactly that entry is there besides those before, in order |
| TimerContainer.TimerContainer.RemoveOne | src/timer_container.cc:20-27 | afterwards exactly the other entries are there, in order, and the answer tells whether that is a change |
| TimerContainer.TimerContainer.MoveOutBeforeOrAt | src/timer_container.cc:29-49 | returns in order exactly the entries due by then and keeps exactly the others |
| EventLoopTimers.NoForgottenTimer | src/event_loop.cc:308-481 | about to block, with the earliest timer due at e before FOREVER minus the threshold, the timerfd is armed for, or went off unreported at, a time not later than e plus the threshold, if and only if no alarm for time zero is in force; none is when e is later than zero |
| EventLoopTimers.DueAlarmIsReported | src/event_loop.cc:97-140 | with the clock past e plus the threshold the kernel's next report includes the timerfd |
| EventLoopTimers.PollTakesTheEdge | src/event_loop.cc:97-140 | the timerfd is reported once for each time the alarm went off |
| EventLoopTimers.NewLoopHoldsItsTimer | src/event_loop.cc:7-54 | a new loop holds one timer, endless, due and repeated after three seconds, and the alarm is set for it unless the threshold forbids |
| EventLoopTimers.EntriesAreCurrent | src/timer_container.cc:5-27 | over any run each entry's stored time is the current expiration of a timer not deleted |
| EventLoopTimers.StepKeepsInv | src/event_loop.cc:132-140 | adds at any time, cancels, expiries with callbacks that add and cancel, polls, reads, time and the alarm going off keep alarm and set in agreement |
| EventLoopTimers.MoveOutSpendsTrigger | src/event_loop.cc:377-418 | taking out what is due by now leaves an alarm that covers the rest without the trigger, which may then be cleared |
| EventLoopTimers.ExpiryOutcome | src/event_loop.cc:420-454 | a timer that was due waits again, at the time its own expiry gives, if and only if it has repetitions left, and is deleted otherwise, whatever the callbacks did, cancelling it included |
| EventLoopTimers.BatchOutcome | src/event_loop.cc:424-435 | each timer of a batch ends as its own expiry says, and nothing a callback does can delete it in between |
| EventLoopTimers.EndedIsGone | src/event_loop.cc:432-434 | a timer of a batch that has ended is deleted, unless a later callback has made a new one at its address |
| EventLoopTimers.TimerRunOutcome | src/timer.cc:63-79 | a timer whose callback acts on the loop between its runs still ends as its own expiry says, with its runs counted |
| EventLoopTimers.NothingDueIsLeft | src/event_loop.cc:377-481 | if callbacks add nothing due by t, everything left after expiry at t is due strictly later |
| EventLoopTimers.CancelRemovesHeld | src/event_loop.cc:344-359 | cancelling a timer in the container takes out that timer and no other |
| EventLoopTimers.CancelInFlightHasNoEffect | src/event_loop.cc:345-350 | cancelling a timer that an expiry has taken out of the container changes nothing |
| EventLoopTimers.CancelledNeverFires | src/event_loop.cc:344-375 | a timer out of the container between two calls never comes back into it, over any further run, until a new timer is made at its address |
| EventLoopTimers.CancelFreesUnlessLast | src/event_loop.cc:352-374 | the timer object is deleted if and only if it was not the only one |
| EventLoopTimers.AddSetsZeroAlarm | src/event_loop.cc:308-335 | for every timer and loop: a new timer puts an alarm for time zero in force exactly when due then with the alarm more than the threshold later, and aborts exactly when due before zero and as early |
| EventLoopTimers.AddIsCovered | src/event_loop.cc:308-342 | after an add the alarm covers the timers unless such an alarm is in force without a trigger pending |
| EventLoopTimers.ZeroTimeStarvesOthers | src/event_loop.cc:320-339 | in a loop with only its own timer, a timer at time zero leaves all three timers forgotten, one added after it included |
| EventLoopTimers.AddMovesAlarm | src/event_loop.cc:308-342 | a new timer moves the alarm, and to its own time, exactly when it is due more than the threshold before it |
| EventLoopTimers.CancelMovesAlarm | src/event_loop.cc:352-371 | a cancellation moves the alarm exactly when it is earlier than the earliest timer left, to that one's time; with none left it is cancelled |
| EventLoopTimers.DueTimersExpire | src/event_loop.cc:97-140 | from the alarm to the callbacks: a blocked loop with its earliest timer due is woken, and by the end of that turn every timer due has expired |
| EventLoopTimers.LastTimersExpire | src/event_loop.cc:87-92 | the expiry before a stopped loop returns does the same |
| EventLoopTimers.OwnTimerNeverEnds | src/event_loop.cc:49-53 | the loop's own timer runs every three seconds for ever |
| EventLoopTimers.EventLoop.constructor | src/event_loop.cc:7-54 | a loop that holds its endless three-second timer and has the alarm set for it |
| EventLoopTimers.EventLoop.AddATimerAndUpdateAlarm | src/event_loop.cc:308-342 | inserts and advances the alarm if the timer is early enough |
| EventLoopTimers.EventLoop.CancelATimerAndUpdateAlarm | src/event_loop.cc:344-375 | removes if held, then delays or cancels the alarm |
| EventLoopTimers.EventLoop.ExpireTimersAndUpdateAlarm | src/event_loop.cc:377-481 | moves out, updates, runs the batch and puts back, touching only timers that still exist |
| EventLoopTimers.EventLoop.ExpireUntil | src/timer.cc:63-79 | runs the callback and moves the timer on in turn, whatever the callback does to the loop |
| TimerLedger.WaitingTimersRanAsDue | src/event_loop.cc:377-454 | over any run, a waiting timer's callback has run exactly as often as was due, within its repetitions, at the latest expiry it waited for, and it is due later |
| TimerLedger.DeletedTimersRanAsDue | src/event_loop.cc:424-435 | the same holds of every timer that ended or was cancelled |
| TimerLedger.StepKeepsLedger | src/event_loop.cc:308-481 | every call and every expiry keeps runs made and runs due equal for every timer |
| TcpBuffer.FindCrlf | src/tcp_buffer.cc:20-35 | the first CRLF, or none exactly when there is none |
| TcpBuffer.FindNewline | src/tcp_buffer.cc:5-18 | the first newline, or none exactly when there is none |
| TcpBuffer.FindCrlfIsFirst | src/tcp_buffer.cc:20-35 | a position is the result exactly when it is the first match |
| TcpBuffer.ReallocatesOnlyWhenFull | src/tcp_buffer.cc:42-70 | making space changes the capacity exactly when live plus new bytes exceed it |
| TcpBuffer.MemoryIsBoundedByPeak | src/tcp_buffer.cc:42-70 | over any run capacity stays within max(15, twice the largest live size), however many bytes pass |
| TcpBuffer.CapacityOverRun | src/tcp_buffer.cc:42-70 | over any run the offsets span exactly the queue's bytes and capacity respects any bound on its size |
| TcpBuffer.MutableSizeTcpBuffer.constructor | include/tcp_buffer.h:103-106 | an empty buffer of capacity 15 |
| TcpBuffer.MutableSizeTcpBuffer.GetReadableSize | include/tcp_buffer.h:52-54 | the length of the byte queue |
| TcpBuffer.MutableSizeTcpBuffer.ForwardReadPosition | include/tcp_buffer.h:56-59 | drops bytes from the front, at most all |
| TcpBuffer.MutableSizeTcpBuffer.GetNextNewlinePosition | src/tcp_buffer.cc:5-18 | the position in the storage of the first newline in the queue |
| TcpBuffer.MutableSizeTcpBuffer.GetNextCrlfPosition | src/tcp_buffer.cc:20-35 | the position in the storage of the first CRLF in the queue |
| TcpBuffer.MutableSizeTcpBuffer.MakeSpace | src/tcp_buffer.cc:37-77 | in all three branches the readable bytes stay what they were, in front of the new space |
| TcpBuffer.MutableSizeTcpBuffer.Append | include/tcp_buffer.h:67-71 | appends to the byte queue |
| HttpRequest.RequestLineGrammar | example/http/server/src/http_request.cc:17-89 | a line is read as GET or POST with HTTP/1.0 or HTTP/1.1 and a path if and only if it consists of that very verb, that path and that version text with blanks between and around them; no other line is accepted |
| HttpRequest.RefusedLineLeaves | example/http/server/src/http_request.cc:17-89 | what a refused line leaves set: the method of its first word, the path behind a supported method, the unsupported version |
| HttpRequest.HeaderLineGrammar | example/http/server/src/http_request.cc:123-168 | a header line is accepted if and only if it is a non-empty trimmed colon-free key, a colon and a trimmed value with blanks around them, and is read as those |
| HttpRequest.TrimIsTheMiddle | example/http/server/src/http_request.cc:134-162 | trimming leaves the part between the blanks at both ends, and only that is it |
| HttpRequest.WordIsFound | example/http/server/src/http_request.cc:20-40 | skipping spaces and searching the next one finds the word there is |
| HttpRequest.SearchWindowAgrees | example/http/server/src/http_request.cc:30-31 | the code's window gives the bounded answer if and only if the line has the space or the window shows none behind it |
| HttpRequest.WrittenParseAgrees | example/http/server/src/http_request.cc:17-89 | for every line and whatever follows its CRLF: the parse as written throws if and only if the path runs over, agrees with the bounded parse if and only if it does not and no method type is reset, accepts the same lines, and when it throws has set the path to more than the line |
| HttpRequest.OverrunThrows | example/http/server/src/http_request.cc:56-88 | a line without version, with a header field behind it, on which the parse as written throws |
| HttpRequest.HttpRequest.ParseRequestLine | example/http/server/src/http_request.cc:17-89 | the trimming loops compute the parsed line, and keep what was set before a failure |
| HttpRequest.HttpRequest.ParseHeaderLine | example/http/server/src/http_request.cc:123-168 | enters the field, over an earlier one with that key |
| HttpRequest.HttpRequest.Reset | example/http/server/include/http_request.h:113-120 | a new request but for the close flag |
| HttpRequest.TrimEnds | example/http/server/src/http_request.cc:134-162 | the index loops find the trimmed part |
| HttpRequest.SkipLeading | example/http/server/src/http_request.cc:20-23 | the index loop finds the first character to keep |
| HttpParser.ChunkIndependence | example/http/server/src/http_parser.cc:9-151 | however a stream is cut, appending piece by piece and parsing after each gives the same state, request, body length and unread bytes as all at once |
| HttpParser.CutsCannotBeToldApart | example/http/server/src/http_parser.cc:9-151 | two ways of cutting one stream give the same result |
| HttpParser.StepIsStable | example/http/server/src/http_parser.cc:16-151 | what a unit of work does does not depend on bytes that come later |
| HttpParser.ParsedEarlier | example/http/server/src/http_parser.cc:9-151 | parsing early and again later is parsing once |
| HttpParser.CrlfStaysFirst | src/tcp_buffer.cc:20-35 | a line end once found stays the first one |
| HttpParser.SuccessMeansMessage | example/http/server/src/http_parser.cc:9-151 | a parser for the next message succeeds on exactly the streams that start with a request line, header lines, an empty line and the body announced, if any |
| HttpParser.MessageIsRead | example/http/server/src/http_parser.cc:41-151 | what is read of any message: method, path and version of the line; of each key the last field; the close flag if and only if Connection is "close"; a body exactly for a POST with a Content-Length, as long as that says; failure if it has no digits |
| HttpParser.FirstLineDecides | example/http/server/src/http_parser.cc:16-39 | without a line end nothing is taken; a line that is no request line fails and stays unread |
| HttpParser.HeaderLineDecides | example/http/server/src/http_parser.cc:41-129 | behind whole header lines the parser waits for the next, or fails at one that is no field and leaves it unread |
| HttpParser.HeaderSectionIsRead | example/http/server/src/http_parser.cc:41-128 | a header section is read line by line to its empty line, the last field of a key winning |
| HttpParser.OldCloseFlagIsLost | example/http/server/include/http_parser.h:26-32 | the close flag that reset leaves never shows in a message that gets past its headers, and changes nothing else |
| HttpParser.LengthIsReadBack | example/http/server/src/http_parser.cc:84-96 | the decimal of a length up to the largest long is read as that length |
| HttpParser.StrtolOfDigits | example/http/server/src/http_parser.cc:88-89 | a digit string is read as the number it denotes, saturated |
| HttpParser.StrtolGrammar | example/http/server/src/http_parser.cc:84-96 | strtol finds a number exactly in blanks, a sign or none, and digits, and saturates it |
| HttpParser.ContentLengthGrammar | example/http/server/src/http_parser.cc:84-96 | a Content-Length is refused exactly when it has no numeral, and a negative one stands for 2^64 less its amount |
| HttpParser.HttpParser.Parse | example/http/server/src/http_parser.cc:9-151 | does all that can be done with the unread bytes, and fails exactly in the failed state |
| HttpParser.HttpParser.ParseRequestLine | example/http/server/src/http_parser.cc:16-39 | waits for the whole line, then reads it and leaves exactly what follows it, or fails and leaves the bytes |
| HttpParser.HttpParser.ParseHeaders | example/http/server/src/http_parser.cc:41-129 | the header loop takes every whole line and stops at the first that is not there |
| HttpParser.HttpParser.ParseBody | example/http/server/src/http_parser.cc:132-151 | waits for the whole body, then takes exactly that |
| HttpParser.HttpParser.Reset | example/http/server/include/http_parser.h:26-32 | a new parser but for the close flag |
| HttpResponse.HeadersRoundTrip | example/http/server/src/http_response.cc:265-280 | printed headers with well-formed fields read back as the very same map, in any iteration order |
| HttpResponse.BodyRoundTrip | example/http/server/src/http_response.cc:265-284 | a POST message reads back whole, with nothing unread, if and only if its Content-Length is the length of its body |
| HttpResponse.FieldRoundTrip | example/http/server/src/http_response.cc:266-274 | a printed field reads back as itself if and only if key and value are trimmed and the key is non-empty and has no colon |
| HttpResponse.FieldsAreEntered | example/http/server/src/http_response.cc:265-277 | reading printed fields in any order, even repeated, adds exactly those headers |
| HttpResponse.SetBodyRoundTrip | example/http/server/include/http_response.h:152-162 | the dump of a response after set_body, behind its status line, reads back with that body if and only if it was not moved in or is empty |
| HttpResponse.BodyOfGetStaysUnread | example/http/server/src/http_parser.cc:71-81 | the body of a message that is no POST stays unread |
| HttpResponse.DumpStartsWithStatusLine | example/http/server/src/http_response.cc:243-285 | a dump is version, space and status, then key, colon and value for each header, an empty line and the body, each line ended by CRLF |
| HttpResponse.VersionTextIsRead | example/http/server/src/http_response.cc:9-23 | the printed version is the one the request parser reads |
| HttpResponse.HttpResponse.DumpToTcpBuffer | example/http/server/src/http_response.cc:243-285 | appends the whole message to the buffer, for any iteration order |
| HttpResponse.HttpResponse.SetBody | example/http/server/include/http_response.h:152-162 | the body is the argument, Content-Length the decimal of the length measured, every other header as before |
| HttpResponse.HttpResponse.EraseHeader | example/http/server/src/http_response.cc:231-241 | removes that header only and tells whether it was there |
| HttpResponse.HttpResponse.SetHeader | example/http/server/include/http_response.h:122-124 | get_header then gives that value, and what it always gave for every other key |
| TcpConnectSocketfd.OutputIsInOrder | src/tcp_connect_socketfd.cc:199-313 | for any partial sends, full buffers, errors and write events: while open, accepted plus buffered bytes are all that was sent, in order; accepted bytes are always a prefix of it; the write end is shut down only when all is accepted |
| TcpConnectSocketfd.StepKeepsOrder | src/tcp_connect_socketfd.cc:199-313 | each send, write event and shutdown check keeps the order, resting on an empty buffer whenever no write event is awaited |
| TcpConnectSocketfd.DrainedWhenTaken | src/tcp_connect_socketfd.cc:289-309 | a write event the kernel takes in full empties the buffer and stops listening |
| TcpConnectSocketfd.OfferedIsPrefix | src/tcp_connect_socketfd.cc:419-468 | what the kernel takes is a prefix of the data, as long as reported unless the pipe broke |
| TcpConnectSocketfd.Transferred | src/tcp_connect_socketfd.cc:419-468 | never more than the data is taken |
| TcpConnectSocketfd.TransferredIsAllTaken | src/tcp_connect_socketfd.cc:419-468 | the data is offered until it is all taken or the kernel is full or the pipe breaks: what goes out is the sum of the answers up to then |
| TcpConnectSocketfd.SendOutcome | src/tcp_connect_socketfd.cc:199-230 | in every state what send does: nothing, buffer behind what is buffered, or offer at once and buffer exactly the rest |
| TcpConnectSocketfd.WriteOutcome | src/tcp_connect_socketfd.cc:272-309 | a write event takes from the buffer exactly what the kernel takes, and listening ends when that is all |
| TcpConnectSocketfd.ClosesWhenDone | src/tcp_connect_socketfd.cc:254-320 | over any run an open connection shuts its write end at the next check if and only if the peer has ended its input and everything sent has been accepted |
| TcpConnectSocketfd.TcpConnectSocketfd.SendAsManyData | src/tcp_connect_socketfd.cc:419-468 | the send loop with its running total, and the faked total on a broken pipe |
| TcpConnectSocketfd.TcpConnectSocketfd.Send | src/tcp_connect_socketfd.cc:199-230 | buffers behind what is buffered, otherwise sends and buffers the rest |
| TcpConnectSocketfd.TcpConnectSocketfd.WriteEventCallback | src/tcp_connect_socketfd.cc:272-320 | drains what the kernel takes, then stops listening and shuts down if nothing is left to do; a connection that broke meanwhile stays aborted |
| Format.DigitsDenoteTheNumber | include/util/format.h:70-73 | the digits of a number denote it and have no superfluous zero |
| Format.DigitsAreTheUsual | include/util/format.h:86-106 | the digits up to fifteen are 0 to 9 and a to f |
| Format.CanonicalNumeralIsUnique | include/util/format.h:70-73 | a numeral without superfluous zeros is the digits of what it denotes |
| Format.LengthOfDigits | include/util/format.h:36-39 | a number up to max has at most floor(log10 max) + 1 digits |
| Format.Log10FloorIsTheFloor | include/util/format.h:143-146 | the recursion computes the floor of the decimal logarithm |
| Format.ConversionRoundTrip | include/util/format.h:59-84 | the text is the canonical decimal and reads back to v if and only if -max <= v, and never exceeds floor(log10 max) + 2 characters |
| Format.SmallestValueIsMangled | include/util/format.h:64-73 | the smallest signed value comes out as "-(", a minus sign and a non-digit |
| Format.PointerTextIsInvertible | include/util/format.h:86-106 | the text of a 64-bit pointer tells the pointer |
| Format.Reverse | include/util/format.h:81-81 | reverses a range in place and touches nothing else |
| Format.ConvertIntegerToDecimalString | include/util/format.h:59-84 | the reversed digit loop writes exactly the text and a NUL and leaves the rest of the buffer alone |
| Format.ConvertPointerToHexString | include/util/format.h:86-106 | writes exactly the pointer's text and a NUL |
| LogBuilder.EntryStaysInsideTheBuffer | src/log_builder.cc:63-75 | any sequence of guarded writes leaves room for the NUL and only ever adds to the entry |
| LogBuilder.NothingIsThrownAway | include/log_buffer.h:76-85 | when the rooms asked for fit together the entry is all the texts in order |
| LogBuilder.RoomSuffices | src/log_builder.cc:66-66 | no text, with its NUL, exceeds the room its guard asks for |
| LogBuilder.TextTellsTheItem | src/log_builder.cc:63-110 | each item's text: a string itself, "true " or "false", 0x and sixteen digits that denote the pointer, a decimal that reads back if and only if the value is at least -max |
| LogBuilder.WrittenIfThereIsRoom | src/log_builder.cc:63-110 | each item is written exactly when it fits: text up to the spare bytes, a number with more than floor(log10 max) + 2 spare, a pointer with more than 18 |
| LogBuilder.EntryFitsTheCollector | include/log_buffer.h:13-15 | a finished entry is no longer than the collector allows |
| LogBuilder.FixedSizeLogBuffer.constructor | include/log_buffer.h:94-96 | an empty buffer |
| LogBuilder.FixedSizeLogBuffer.Append | include/log_buffer.h:76-85 | appends, or throws the data away when it does not fit |
| LogBuilder.FixedSizeLogBuffer.IncrementLength | include/log_buffer.h:66-68 | takes bytes already written into the contents |
| LogBuilder.FixedSizeLogBuffer.Reset | include/log_buffer.h:87-89 | empties the buffer |
| LogBuilder.LogBuilder.Write | src/log_builder.cc:63-110 | writes an item's text if its guard lets it, and nothing otherwise |
| LogBuilder.LogBuilder.WriteInteger | src/log_builder.cc:63-75 | the guarded integer write |
| LogBuilder.LogBuilder.WritePointer | src/log_builder.cc:100-110 | the guarded pointer write |

## Left out

- Socket, epoll, signalfd and file calls themselves: foreign calls, represented by what they may answer.
- C++ memory orders, alignment and cache-line padding: the steps are sequentially consistent, so reorderings are not captured.
- Concurrent code as objects: allocators, queues, wake-up, log collector and condition variables are values stepped by actions, since an interleaving of methods cannot be written as one method; aliasing is captured by addresses, nodes and slots in the state.
- Thread exit and the release of chunks: threads outlive the run.
- Which buffer object is in which slot of the log collector: a slot holds its text. That a buffer has one owner is what `unique_ptr` is for.
- `StaticSimpleThreadLocalStringSlabAllocator` and the other size classes: not part of this model.
- Connection close, abort and error callbacks beyond "the pipe broke": what they do depends on kernel error codes. Using a buffer after it was released is excluded.
- TcpConnectSocketfd.OutputIsInOrder: does not model the write-complete callback, which may call send; such a call is an ordinary Send event between WriteEvent and CheckShutdown. An explicit shutdown_write by the user is not an event.
- EventLoopTimers.NoForgottenTimer: takes the alarm threshold to be non-negative, and does not model an expiry started from inside a timer callback, nor the cancellation of a timer already deleted, which would read freed memory.
- Timer.PollScheduleIndependence: does not model the overflow of 64-bit nanoseconds.
- HttpParser.HttpParser.Parse: does not model the receive time, nor the exception of a request line that overruns; a call after success, which is fatal, is a precondition.
- HttpParser.SuccessMeansMessage: is about the code's grammar, which is wider than that of RFC 7230.
- HttpRequest.RequestLineGrammar: is about searches bounded by the line end; HttpRequest.WrittenParseAgrees says what the code as written adds.
- The table of status codes and descriptions, MIME types, dates: a status is its text here.
- Floating-point output (`snprintf`) and `bool`-like trivial overloads of `<<` other than those listed.
- The order in which a log entry's prefix and suffix are written by `LogBuilder`'s constructor and destructor: plain sequences of the guarded writes.
