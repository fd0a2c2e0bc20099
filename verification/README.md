# A verified model of MyFileServer

MyFileServer is a reactor library in the style of muduo (event loop, timers, buffers, connections,
an asynchronous logger, a memory pool, a thread pool, a connection pool) with an HTTP file server
on top. This project models the parts whose correctness rests on invariants that no single function
shows, and proves those invariants for every run: every sequence of calls, every interleaving of
threads, every answer of the system calls.

`dafny verify dfyconfig.toml` checks the whole project.

## How the model is built

* Each component has a **value model**: a state, the steps that change it, and lemmas about every
  run (`Runs.dfy` holds the one induction over runs). System calls, clocks, allocators and callbacks
  are arguments of the steps, so a statement about all runs is a statement about all their answers.
* Where the source works in place, there is also an **object** with the source's fields, loops and
  early exits. Its methods are proved to do what the value model's functions do, so what is proved of
  every run of the model holds of every run of the object. The event loop and the timer queue carry
  the model's world as a ghost field that is always one a run reaches, so each of their methods is a
  sequence of the model's steps. The buffer, the connection and the poller have a `Replay` that drives
  a new object through any sequence of operations.

| component | value model | object |
|---|---|---|
| memory pool | `PoolModel.dfy`, `PoolArena.dfy`, `PoolRuns.dfy`, `PoolRoom.dfy` | `MemoryPool.dfy` |
| asynchronous logger | `AsyncModel.dfy`, `AsyncTrace.dfy` | `AsyncLogging.dfy`, `FixedBuffer.dfy` |
| integer printing | `Decimals.dfy` | `LogStream.dfy` |
| functor queue and wakeup | `EventLoop.dfy` (first module) | `EventLoop.dfy` (second module) |
| timers | `TimerModel.dfy`, `TimerRuns.dfy` | `TimerQueue.dfy` |
| byte buffer | a plain sequence of bytes | `Buffer.dfy` |
| connection output | `ConnModel.dfy` | `TcpConnection.dfy` |
| HTTP requests | `HttpModel.dfy`, `HttpRoundTrip.dfy`, `HttpGrammar.dfy` | `HttpContext.dfy` |
| server's message handler | `FileServer.dfy` | a composition of the parser and the connection |
| poller | `EPollPoller.dfy` (first module) | `EPollPoller.dfy` (second module) |
| thread pool | `ThreadPool.dfy` | a protocol of threads, modelled by its steps |
| connection pool | `ConnectionPool.dfy` (first module) | `ConnectionPool.dfy` (second module) |

## Where the code does not do what it seems to promise

These are results: each has a lemma with a concrete run or input, and a statement of exactly when
the code does meet the property.

* **Log files are padded.** The back end writes `length()` bytes of each buffer, and `length()` is
  the capacity. The file equals the logged lines only as long as nothing has been written
  (`AsyncModel.FileIsPayloadIffNothingWritten`); the first line written shows it
  (`AsyncModel.PaddedFileIsReachable`). And the padding is old lines: a buffer is emptied without being
  cleared, so a later writing repeats every byte of the earlier one behind its own lines
  (`AsyncTrace.BufferRepeats`), and a line appended once can be in the file twice
  (`AsyncTrace.LineIsWrittenTwice`). The content theorems therefore speak about the prefix of each buffer
  up to its write pointer.
* **`stop` of the logger can lose lines** (`AsyncModel.StopLosesLines`). What was appended before the
  call is written exactly when the back end had passed its test of `running_` or the front end held
  nothing (`AsyncModel.StopDeliversIff`).
* **Work queued before `loop()` can wait for the poll timeout.** A functor the loop thread queues for
  itself before it enters `loop()` is announced by no wakeup (`EventLoopModel.EarlyQueueStrands`).
  Entering `loop()` over such work is the only way (`EventLoopModel.NeverStrandedIff`).
* **A timer firing can find no timer.** A handler that adds an overdue timer between the poll and
  `handleRead` leaves the timerfd armed over an empty set (`TimerRuns.SpuriousFiring`). A firing finds
  a due timer exactly when the set is not empty (`TimerRuns.ReportFindsDue`).
* **Such a firing can cost the next timer its alarm.** `handleRead` reads the clock before it reads the
  timerfd. A timer added after the report, whose delay ends between the two, is not due at the first
  and is cleared by the second, and nothing arms the timerfd again (`TimerRuns.AlarmIsLost`). A queue is
  armed throughout a run exactly when no reading does this (`TimerRuns.ArmedIffNeverLost`), which holds
  whenever every report was made over a non-empty set (`TimerRuns.ArmedIfReportsAreDue`). A queue
  without its alarm runs nothing until an earlier timer is added (`TimerRuns.LostUntilEarlier`).
* **A request cut into several messages is answered 400.** `parseRequest` returns whether *this call*
  met a good request line. A good request gets no 400 exactly when it comes in one message; however
  it is cut, it is handed to `onRequest` with its last byte (`HttpRoundTrip.OnlyUncutIsAccepted`,
  `HttpRoundTrip.CutRequestIsRefusedAndServed`). The 400 is followed by `shutdown`, so its client is sent
  the 400 and never the answer (`ServerModel.CutRequestGetsOnlyTheRefusal`).
* **`parseRequest` would not end on a complete request**; it ends exactly when it is not entered with
  one (`HttpModel.LoopEndsIff`), and `onMessage` never does (`HttpModel.NeverSpins`).
* **The connection pool counts twice.** `currentSize_` is the live connections plus all ever created,
  so the pool stops at half its maximum (`ConnectionPoolModel.RunKeeps`), and without a minimum it can
  use its maximum up and die for good (`ConnectionPoolModel.UsedUp`, `ConnectionPoolModel.DeadForever`).
  Which configurations allow that is `ConnectionPoolModel.CanDieIff`.
* **The producer can miss that the queue is empty.** It sleeps over a queue that is not, and the recycler
  that empties the queue notifies nobody (`ConnectionPoolModel.SleepsOverEmptyQueue`); with nothing
  borrowed, borrowers then wait forever after a single connection. Which configurations allow that is
  `ConnectionPoolModel.CanMissIff`, and what ends it `ConnectionPoolModel.MissedEndsIff`. Taken together: a
  pool that has lost all connections gets one again exactly when its producer is awake and the maximum
  is not used up (`ConnectionPoolModel.RecoversIff`). The shipped configuration, with a minimum of 2,
  allows neither failure.
* **`makeSpace` takes an `int`.** Lengths from 2 GiB on are truncated (`NetBuffer.FourGiBIsTruncated`);
  `NetBuffer.RoomIffLengthFits` says exactly when the room is there afterwards.
* **Disabling a channel that is not watched puts it into the kernel's set** with no events: one that
  was silenced before (`PollerModel.SilentChannelComesBack`) or is new
  (`PollerModel.NewChannelIsWatchedForNothing`). `PollerModel.WatchedForNothingIff` says exactly when.

## Assumptions

* LP64 sizes for the pool's records: Pool 24, SmallNode 32, LargeNode 24. `posix_memalign` answers with
  16-aligned regions clear of everything allocated. `createPool` and `mallocSmallNode` leave some
  counters and links of a new node unset; they are taken as zero and null. The last client of a
  pointer is the only one to free it, once.
* One clock that never goes back drives `Timestamp::now` and the timerfd. Times and intervals are
  unbounded integers and reals: 64-bit overflow and floating-point rounding are not modelled.
* A byte is a `char`. The static connection pool starts zeroed. Tasks of the thread pool do not throw.
* Where the comments of `src/memory/MemoryPool.h` and `src/mysql/ConnectionPool.cc` disagree with the
  code (the pool limit, the recycling period), the code is followed.

## Model

| member | source | states |
|---|---|---|
| `PoolModel.AlignUp` | src/memory/MemoryPool.h:6-7 | the masked sum is the least multiple of 16 that is not below its argument |
| `PoolModel.FirstFit` | src/memory/MemoryPool.cc:161-178 | the walk stops at the first node from `current_` on that has room, or at the end when none has |
| `PoolModel.AdvanceCurrent` | src/memory/MemoryPool.cc:127-142 | moving `current_` past failing nodes never moves it off the chain |
| `PoolModel.OwningBlock` | src/memory/MemoryPool.cc:208-232 | the walk stops at the first node whose inclusive range contains the pointer |
| `PoolModel.FreeRecord` | src/memory/MemoryPool.cc:71-87 | the walk ends at the first unoccupied record among the first five, or reports none when those are all occupied |
| `PoolModel.RecordOf` | src/memory/MemoryPool.cc:195-206 | the walk ends at the first record that names the pointer |
| `PoolArena.FitIsExact` | src/memory/MemoryPool.cc:166-169 | the pointer difference in the fit test is never negative, so the unsigned comparison is the intended one |
| `PoolArena.OwnerIsUnique` | src/memory/MemoryPool.cc:211-212 | no address inside a page passes the inclusive test of another page |
| `PoolArena.QuoteIsBounded` | src/memory/MemoryPool.cc:171 | a reference count is at most the page size, far from its 32-bit wrap |
| `PoolArena.CarveKeeps` | src/memory/MemoryPool.cc:166-174 | carving from a page yields an address that was free and keeps alignment, disjointness, containment and all counts |
| `PoolArena.NewBlockKeeps` | src/memory/MemoryPool.cc:107-144 | a new page has room for any request of up to 4064 bytes, its first range is aligned and new, and the whole invariant is kept |
| `PoolArena.MallocKeeps` | src/memory/MemoryPool.cc:159-180 | a small request returns null exactly when no page fits and no page is given, changing nothing; otherwise it carves a free range |
| `PoolArena.FreeFindsOwner` | src/memory/MemoryPool.cc:208-214 | for a live range the walk finds the one page that holds it, and its count is positive |
| `PoolArena.ReleaseRange` | src/memory/MemoryPool.cc:214-229 | releasing a range leaves every other live range below its page's bump pointer: a page is rewound only when nothing in it is live |
| `PoolArena.FreeKeeps` | src/memory/MemoryPool.cc:208-233 | giving a live range back keeps the invariant for the remaining ones |
| `PoolArena.ResetKeeps` | src/memory/MemoryPool.cc:251-258 | rewinding every page leaves a valid pool in which nothing is carved |
| `PoolRuns.CreateEstablishes` | src/memory/MemoryPool.cc:25-31 | a fresh pool satisfies the invariant |
| `PoolRuns.SmallMallocKeeps` | src/memory/MemoryPool.cc:159-180 | a small malloc keeps the invariant of pool and client together |
| `PoolRuns.LargeMallocKeeps` | src/memory/MemoryPool.cc:62-104 | a large malloc keeps it, whether it reuses a record, carves a new one or gives the region up |
| `PoolRuns.FreeBigKeeps` | src/memory/MemoryPool.cc:195-206 | freeing a region empties exactly its record and keeps the invariant |
| `PoolRuns.FreeSmallKeeps` | src/memory/MemoryPool.cc:193-234 | freeing a small range is never mistaken for a region and keeps the invariant |
| `PoolRuns.FreeNullKeeps` | src/memory/MemoryPool.cc:193-234 | freeing null changes nothing, though it may match an empty record |
| `PoolRuns.ResetPoolKeeps` | src/memory/MemoryPool.cc:236-259 | resetting keeps the invariant with nothing held |
| `PoolRuns.RunKeeps` | src/memory/MemoryPool.cc:6-259 | the invariant holds in every world any run of mallocs, valid frees and resets reaches |
| `PoolRuns.SmallIsSound` | src/memory/MemoryPool.cc:146-180 | a small range is aligned, inside one page, and touches no header and no linked record |
| `PoolRuns.BigIsSound` | src/memory/MemoryPool.cc:62-104 | a region is aligned and clear of every page, header and record |
| `PoolRuns.HeldApart` | src/memory/MemoryPool.cc:146-180 | any two ranges the client holds are disjoint |
| `PoolRuns.QuoteCountsUsers` | src/memory/MemoryPool.cc:124-214 | a page's count is its live small ranges plus the records it hosts |
| `PoolRuns.PoolIsSafe` | src/memory/MemoryPool.cc:6-259 | all of the above together, for every state of every run, with `current_` always a node of the chain |
| `PoolRoom.UnusedPageIsWhole` | src/memory/MemoryPool.cc:208-258 | over every run, a page in which nothing is live offers all its room behind the node |
| `PoolRoom.FreeGivesBack` | src/memory/MemoryPool.cc:193-234 | freeing touches only the page of the range: its count goes down, and when that was its last user the page is whole again, its failures are forgotten and `current_` is the head |
| `PoolRoom.ResetGivesBack` | src/memory/MemoryPool.cc:236-259 | resetting makes every page whole, drops the records and starts from the head |
| `PoolRoom.ServedByFirstPage` | src/memory/MemoryPool.cc:161-178 | a small request is served by the first page from `current_` on with room, directly behind what that page has given out, and nothing else changes |
| `PoolRoom.AdvancesBehindFailures` | src/memory/MemoryPool.cc:127-142 | `current_` ends behind the last node that had failed five times, the end of the chain apart |
| `PoolRoom.ServedByNewPage` | src/memory/MemoryPool.cc:107-144 | without such a page null is answered, or a new page serves the request behind its node while the pages walked over count one failure more |
| `PoolRoom.LargeReusesRecord` | src/memory/MemoryPool.cc:71-87 | a large request takes the first empty one of the first five records and no page changes |
| `PoolRoom.LargeCarvesRecord` | src/memory/MemoryPool.cc:89-103 | otherwise its record is carved like a small request and linked first, or null is answered and nothing changes |
| `PoolRoom.NothingToGive` | src/memory/MemoryPool.cc:146-158 | requests for nothing, and large ones without a region, are answered null; the others up to 4064 bytes go to the pages |
| `PoolRoom.RecordsCarryLengths` | src/memory/MemoryPool.cc:78-99 | over every run, an occupied record carries the length of its region, as far as 32 bits go |
| `MemoryPoolObject.MemoryPool.constructor` | src/memory/MemoryPool.cc:6-34 | the created object has the value the model starts from |
| `MemoryPoolObject.MemoryPool.CountFailures` | src/memory/MemoryPool.cc:127-140 | the walk counts a failure in every node but the last and finds the new `current_`, on an acyclic chain |
| `MemoryPoolObject.MemoryPool.MallocSmallNode` | src/memory/MemoryPool.cc:107-144 | linking a new page has the modelled effect and keeps the chain acyclic |
| `MemoryPoolObject.MemoryPool.Malloc` | src/memory/MemoryPool.cc:146-180 | result and new state are those of the model's malloc |
| `MemoryPoolObject.MemoryPool.MallocLargeNode` | src/memory/MemoryPool.cc:62-104 | result and new state are those of the model's large malloc |
| `MemoryPoolObject.MemoryPool.FreeMemory` | src/memory/MemoryPool.cc:193-234 | the new state is that of the model's free |
| `MemoryPoolObject.MemoryPool.ResetPool` | src/memory/MemoryPool.cc:236-259 | the new state is that of the model's reset |
| `FixedBuffers.FixedBuffer.Append` | src/logger/FixedBuffer.h:22-29 | a text that leaves a byte free is added behind the used prefix; any other is dropped whole |
| `FixedBuffers.FixedBuffer.Add` | src/logger/FixedBuffer.h:36 | the write pointer moves over bytes already written, inside the array |
| `FixedBuffers.FixedBuffer.Reset` | src/logger/FixedBuffer.h:38 | the used prefix becomes empty and the array keeps its bytes |
| `AsyncModel.AppendKeepsContent` | src/logger/AsyncLogging.cc:25-57 | an append adds exactly its line to what the front end holds, or nothing if the line is as long as a buffer |
| `AsyncModel.AppendRotatesIff` | src/logger/AsyncLogging.cc:30-51 | a line that fits goes into the current buffer; any other takes the next buffer or, only if there is none, a new one, and queues the current one last |
| `AsyncModel.AppendKeepsOwners` | src/logger/AsyncLogging.cc:42-51 | rotating buffers gives none of them a second owner |
| `AsyncModel.SwapKeepsContent` | src/logger/AsyncLogging.cc:96-106 | the critical section makes a batch of exactly what the front end held, which holds nothing afterwards |
| `AsyncModel.SwapKeepsOwners` | src/logger/AsyncLogging.cc:96-106 | the critical section neither loses nor duplicates a buffer |
| `AsyncModel.WriteKeepsContent` | src/logger/AsyncLogging.cc:116-119 | writing a buffer moves its used prefix from the batch to the written bytes |
| `AsyncModel.RecycleKeepsOwners` | src/logger/AsyncLogging.cc:124-145 | the two spares are distinct buffers of the batch, and no buffer gains an owner |
| `AsyncModel.EnabledIsDefined` | src/logger/AsyncLogging.cc:99-143 | no step moves from an empty slot or calls `back()` on an empty vector |
| `AsyncModel.StepKeeps` | src/logger/AsyncLogging.cc:25-145 | each front-end or back-end step keeps the whole invariant |
| `AsyncModel.RunKeeps` | src/logger/AsyncLogging.cc:25-145 | for every interleaving: written and batch hold the lines accepted up to the last critical section, the queue and the current buffer the later ones, all in lock order; every buffer has one owner; `nextBuffer_` is missing only while `buffers_` is not empty; both spares are back at every loop top; every buffer rotated in is empty |
| `AsyncModel.NeverStuck` | src/logger/AsyncLogging.cc:76-146 | in every reachable state the next step is defined |
| `AsyncModel.FileIsPadded` | src/logger/AsyncLogging.cc:116-119 | the file gets the capacity of every buffer, at least one byte more than its lines |
| `AsyncModel.FileIsPayloadIffNothingWritten` | src/logger/FixedBuffer.h:32 | the file equals the lines exactly as long as no buffer has been written |
| `AsyncModel.PaddedFileIsReachable` | src/logger/AsyncLogging.cc:116-119 | for any line, a run whose file holds the line and the rest of its buffer |
| `AsyncTrace.BufferRepeats` | src/logger/AsyncLogging.cc:116-143 | over every run, between two writings of a buffer nothing clears its array: the second writes again every byte of the first that lies behind its own lines |
| `AsyncTrace.LineIsWrittenTwice` | src/logger/AsyncLogging.cc:116-143 | for any line, a run that appends it once and writes it to the file twice |
| `AsyncModel.StopDeliversIff` | src/logger/AsyncLogging.h:45-50 | once stop has returned, exactly the lines accepted before the last critical section are written; those accepted before the call are all among them exactly when the back end had passed its test of `running_` or the front end held nothing |
| `AsyncModel.StopLosesLines` | src/logger/AsyncLogging.h:45-50 | a run in which a line appended before stop is never written |
| `AsyncLoggingObject.AsyncLogging.Append` | src/logger/AsyncLogging.cc:25-57 | the moves between the slots have the effect of the model's append and leave a current buffer |
| `AsyncLoggingObject.AsyncLogging.TestRunning` | src/logger/AsyncLogging.cc:76 | the back end goes on or exits as the model does |
| `AsyncLoggingObject.AsyncLogging.Swap` | src/logger/AsyncLogging.cc:84-106 | the critical section has the effect of the model's swap |
| `AsyncLoggingObject.AsyncLogging.WriteBatch` | src/logger/AsyncLogging.cc:116-119 | the loop hands over the whole batch in order |
| `AsyncLoggingObject.AsyncLogging.Recycle` | src/logger/AsyncLogging.cc:124-145 | resizing and popping have the effect of the model's recycling; both spares are there afterwards |
| `AsyncLoggingObject.AsyncLogging.Round` | src/logger/AsyncLogging.cc:78-145 | a whole turn, while the front end appends before and after the writing, hands over exactly what the front end held at the critical section, in order, and fills both spares again |
| `Decimals.DecimalReadsBack` | src/logger/LogStream.cc:10-35 | the decimal of every integer is canonical and denotes that integer |
| `Decimals.DecimalIsUnique` | src/logger/LogStream.cc:10-35 | a canonical text is the decimal of what it denotes |
| `LogStreams.TableHoldsDigits` | src/logger/LogStream.cc:4-5 | the table around zero holds the digit of every remainder from -9 to 9 |
| `LogStreams.LogStream.WriteDigits` | src/logger/LogStream.cc:15-25 | the loop writes the digits backwards, at most 20 of them, with table indices in range, for the most negative numbers too |
| `LogStreams.LogStream.Reverse` | src/logger/LogStream.cc:32 | the bytes between the pointers are reversed and no others change |
| `LogStreams.LogStream.FormatInteger` | src/logger/LogStream.cc:10-35 | with 48 bytes free, any 64-bit integer is appended as its canonical decimal, terminator included within those bytes; otherwise nothing changes |
| `EventLoopModel.StepKeepsOrder` | src/net/EventLoop.cc:126-205 | no step loses, repeats or reorders a functor |
| `EventLoopModel.RunsInQueueOrder` | src/net/EventLoop.cc:126-205 | for every interleaving, executed, draining and pending functors concatenate to the order of queueing |
| `EventLoopModel.StepKeepsWake` | src/net/EventLoop.cc:140-166 | work becomes stranded in poll exactly at an entry to `loop()` over unannounced work |
| `EventLoopModel.CountsWakeups` | src/net/EventLoop.cc:148-166 | over every run the eventfd counts the wakeups since it was last read |
| `EventLoopModel.PlaceFollows` | src/net/EventLoop.cc:65-93 | the loop thread goes round poll, handlers and drain, and leaves at quit |
| `EventLoopModel.WakersFollow` | src/net/EventLoop.cc:126-146 | a wakeup is on its way from a queueing elsewhere, or during the drain, until its write |
| `EventLoopModel.NeverStranded` | src/net/EventLoop.cc:72-90 | unless the loop thread queued for itself outside `loop()`, the loop never waits with work pending while no wakeup is written or on its way |
| `EventLoopModel.NeverStrandedIff` | src/net/EventLoop.cc:72-166 | over every run, work is never stranded exactly when `loop()` is never entered over work that no written or coming wakeup announces |
| `EventLoopModel.EarlyQueueStrands` | src/net/EventLoop.cc:140-145 | a run in which such early work is left to the poll timeout |
| `EventLoopObject.EventLoop.QueueInLoop` | src/net/EventLoop.cc:126-146 | on the loop thread: takes the model's queueing step, and its wakeup step exactly during the drain |
| `EventLoopObject.EventLoop.QueueFromThread` | src/net/EventLoop.cc:126-146 | on another thread: takes the model's queueing step and then its wakeup step |
| `EventLoopObject.EventLoop.HandleRead` | src/net/EventLoop.cc:158-166 | takes the model's step that drains the eventfd |
| `EventLoopObject.EventLoop.DoPendingFunctors` | src/net/EventLoop.cc:183-205 | by steps of the model, exactly the pending batch runs, in order; what it and another thread queue meanwhile stays for the next round, in order, with the eventfd readable |
| `EventLoopObject.EventLoop.Turn` | src/net/EventLoop.cc:72-90 | a turn of the loop runs what was pending, what its handlers queue and what another thread queues before the swap, and leaves nothing stranded |
| `TimerModel.AddTimeIsExact` | src/base/Timestamp.h:65-71 | the sum is within a microsecond of the exact one, towards the start |
| `TimerModel.TimespecIsExact` | src/timer/TimerQueue.cc:85-96 | the split of a delay into seconds and nanoseconds is exact, in range, reads back as the delay and is never the zero that disarms |
| `TimerModel.ArmIsExact` | src/timer/TimerQueue.cc:77-103 | resetTimerfd always arms, through that split, for the expiration or 100 microseconds from its clock reading |
| `TimerModel.InsertKeeps` | src/timer/TimerQueue.cc:175-191 | the set stays strictly ordered, gains exactly the entry, and its first entry is the earlier of the two |
| `TimerModel.SplitIsExact` | src/timer/TimerQueue.cc:116-127 | the sentry splits the set exactly into due and not yet due, in order |
| `TimerRuns.AddKeeps` | src/timer/TimerQueue.cc:64-74 | adding a timer, also from a callback, keeps the invariant |
| `TimerRuns.ReadKeeps` | src/timer/TimerQueue.cc:129-134 | reading the timerfd and taking out what was due at the earlier clock reading keeps it, also when nothing was |
| `TimerRuns.TakingKeepsAlarm` | src/timer/TimerQueue.cc:129-134 | the queue is armed before, and afterwards exactly when something was due at the clock reading, or the set is empty, or the timerfd had not expired when it was read |
| `TimerRuns.RunKeeps` | src/timer/TimerQueue.cc:139-142 | running a callback keeps it: the timer is alive and due |
| `TimerRuns.ResetKeepsQueue` | src/timer/TimerQueue.cc:153-172 | a round of reset puts the timer back under its new expiration or deletes it, and arms for the earliest entry |
| `TimerRuns.ResetKeeps` | src/timer/TimerQueue.cc:150-173 | and a one-shot timer is deleted after it ran exactly once |
| `TimerRuns.ComesBackInTime` | src/timer/Timer.cc:3-14 | over every run, a timer with an interval comes back under one entry that interval, to the microsecond, after the clock reading, any other is gone, and the rest is untouched |
| `TimerRuns.IntervalsAreKept` | src/timer/Timer.cc:3-14 | over every run, a live timer has the interval it was added with |
| `TimerRuns.AddIsRight` | src/timer/TimerQueue.cc:64-74 | adding puts exactly the given timer into the set, under its expiration |
| `TimerRuns.TimersChangeOnly` | src/timer/TimerQueue.cc:129-173 | no step but adding and the rounds of reset changes a timer |
| `TimerRuns.ClockMoves` | src/timer/TimerQueue.cc:77-173 | how far each step moves the clock |
| `TimerRuns.RunInvariant` | src/timer/TimerQueue.cc:64-191 | the invariant holds in every state of every run |
| `TimerRuns.NeverDangling` | src/timer/TimerQueue.cc:139-172 | no step touches a timer that was deleted |
| `TimerRuns.TimersAreSafe` | src/timer/TimerQueue.cc:64-191 | over every run: keys are expirations, nothing runs early, every deleted timer ran once, and between handlers the set holds every live timer and the timerfd is armed for the earliest expiration or 100 microseconds after its clock reading, if at all |
| `TimerRuns.ArmedUnlessLost` | src/timer/TimerQueue.cc:64-173 | a step leaves an armed queue armed exactly when it is not a reading that loses the alarm |
| `TimerRuns.ArmedIffNeverLost` | src/timer/TimerQueue.cc:64-191 | a run is armed throughout exactly when no reading of the timerfd loses the alarm |
| `TimerRuns.ArmedIfReportsAreDue` | src/timer/TimerQueue.cc:64-191 | a run whose every report was made over a non-empty set is armed throughout |
| `TimerRuns.LostUntilEarlier` | src/timer/TimerQueue.cc:64-74 | a queue without its alarm runs nothing and stays so until a timer due before all others is added |
| `TimerRuns.AlarmIsLost` | src/timer/TimerQueue.cc:129-148 | a run that ends between handlers with a live timer and no alarm |
| `TimerRuns.InSetOnce` | src/timer/TimerQueue.cc:156-161 | a live timer is in the set under exactly one entry |
| `TimerRuns.ReportFindsDue` | src/timer/TimerQueue.cc:129-134 | when poll reports the timerfd, a due entry exists exactly when the set is not empty |
| `TimerRuns.ReportIsAnswered` | src/timer/TimerQueue.cc:129-148 | a report over a non-empty set is answered by a non-empty batch, whatever was added in between and however long the handler takes, and does not lose the alarm |
| `TimerRuns.SpuriousFiring` | src/timer/TimerQueue.cc:64-103 | a reachable firing over an empty set |
| `TimerQueueObject.TimerQueue.InsertTimer` | src/timer/TimerQueue.cc:175-191 | the search for the place has the effect of the model's insertion and reports whether the earliest changed |
| `TimerQueueObject.TimerQueue.ResetTimerfd` | src/timer/TimerQueue.cc:77-103 | the split into seconds and nanoseconds arms the timerfd as the model does, late by the time between the clock reading and timerfd_settime |
| `TimerQueueObject.TimerQueue.AddTimerInLoop` | src/timer/TimerQueue.cc:64-74 | takes the model's step of adding a timer |
| `TimerQueueObject.TimerQueue.GetExpired` | src/timer/TimerQueue.cc:116-127 | returns the due prefix and leaves the rest |
| `TimerQueueObject.TimerQueue.TakeDue` | src/timer/TimerQueue.cc:131-134 | by steps of the model, in the source's order: what was due at the clock reading is taken out, and the queue is armed exactly when the alarm was not lost |
| `TimerQueueObject.TimerQueue.RunAll` | src/timer/TimerQueue.cc:138-143 | by steps of the model, every callback of the batch runs once, in order, with the timers it adds and the time it takes |
| `TimerQueueObject.TimerQueue.ResetOne` | src/timer/TimerQueue.cc:153-172 | a round of the loop is the model's step: the timer comes back after its interval, or is gone, and the rest is untouched |
| `TimerQueueObject.TimerQueue.Reset` | src/timer/TimerQueue.cc:150-173 | by steps of the model, the whole batch is put back or deleted, and a batch that is not empty leaves the queue armed |
| `TimerQueueObject.TimerQueue.HandleRead` | src/timer/TimerQueue.cc:129-148 | the whole handler: exactly the entries due at its clock reading run, in order, and it leaves the queue armed exactly when the alarm was not lost |
| `NetBuffer.Buffer.Retrieve` | src/net/Buffer.h:64-84 | the queue loses its first bytes, or all of them |
| `NetBuffer.Buffer.RetrieveAsString` | src/net/Buffer.h:101-108 | what is returned and what is left make up what was there |
| `NetBuffer.Buffer.FindLineEnd` | src/net/Buffer.h:139-144 | the offset of the first line end, or none |
| `NetBuffer.Buffer.Slide` | src/net/Buffer.h:185-193 | copying the content to the front in place preserves it |
| `NetBuffer.Buffer.MakeSpace` | src/net/Buffer.h:174-194 | the requested room is there afterwards exactly when the truncated length gives it, with the content unchanged; the vector grows, by exactly what is missing, only when its whole free space is too short, and a slide is strictly to the left; a resize that would shrink it or throw is reported and not carried out |
| `NetBuffer.Buffer.EnsureWritableBytes` | src/net/Buffer.h:111-118 | exactly when the room was there or can be made it is there afterwards, with the content unchanged; otherwise this is reported |
| `NetBuffer.Buffer.Append` | src/net/Buffer.h:132-137 | the bytes go to the end of the queue exactly when the room can be made, which is so for every text below 2 GiB |
| `NetBuffer.Buffer.ReadFd` | src/net/Buffer.cc:18-62 | whatever readv delivered, in the tail and in the stack area, goes to the end of the queue in order; a failure changes nothing |
| `NetBuffer.Replay` | src/net/Buffer.h:64-137 | any sequence of appends, retrieves and reads leaves exactly what a plain queue holds; each append below 2 GiB is taken whole, and each read takes at least 64 KiB of what has arrived |
| `MachineIntegers.ConversionsAreExact` | src/net/Buffer.h:174-184 | the conversions between `int`, `size_t` and 32-bit counters give the value of the target type that agrees with the argument modulo its size |
| `NetBuffer.RoomIffLengthFits` | src/net/Buffer.h:111-194 | the exact condition under which ensureWritableBytes delivers the room, for lengths beyond `int` too |
| `NetBuffer.FourGiBIsTruncated` | src/net/Buffer.h:174-184 | a length for which it does not |
| `ConnModel.SendKeeps` | src/net/TcpConnection.cc:126-188 | a send, with any result of write, keeps bytes conserved and write interest exact |
| `ConnModel.WriteKeeps` | src/net/TcpConnection.cc:310-347 | so does a write event, partial or complete |
| `ConnModel.WriteEventShortens` | src/net/TcpConnection.cc:310-325 | in every phase, a write event that takes n bytes shortens the queue by exactly these |
| `ConnModel.PhaseFollows` | src/net/TcpConnection.cc:237-283 | how each call and event changes the state |
| `ConnModel.KnownUntilDestroyed` | src/net/TcpConnection.cc:256-283 | the poller knows the channel from when the connection is up until it is destroyed |
| `ConnModel.RunKeeps` | src/net/TcpConnection.cc:65-357 | for every run: the bytes write's answers say it took are those the kernel has, and with the bytes queued they are the accepted messages; the channel asks for write events exactly while something is queued; shutdownWrite has happened only with everything delivered |
| `ConnModel.NothingAcceptedAfterwards` | src/net/TcpConnection.cc:65-102 | after shutdown or close no message is accepted |
| `ConnModel.ShutdownIsGraceful` | src/net/TcpConnection.cc:237-253 | shutdownWrite happens at most once, when every accepted byte has been written, and nothing is accepted or written afterwards |
| `ConnModel.ShutdownWaitsForTheQueue` | src/net/TcpConnection.cc:322-335 | after shutdown, a write event closes the socket exactly when it empties the queue |
| `TcpConnectionObject.TcpConnection.SendInLoop` | src/net/TcpConnection.cc:126-188 | has the effect of the model's send for every answer of write, unless the output buffer cannot make room, which takes a message of 2 GiB |
| `TcpConnectionObject.TcpConnection.Send` | src/net/TcpConnection.cc:65-84 | has the effect of the model's send |
| `TcpConnectionObject.TcpConnection.SendBuffer` | src/net/TcpConnection.cc:86-102 | sends the buffer's content and empties it, or does neither |
| `TcpConnectionObject.TcpConnection.Shutdown` | src/net/TcpConnection.cc:237-253 | has the effect of the model's shutdown |
| `TcpConnectionObject.TcpConnection.HandleWrite` | src/net/TcpConnection.cc:310-347 | has the effect of the model's write event |
| `TcpConnectionObject.TcpConnection.HandleRead` | src/net/TcpConnection.cc:285-308 | the input queue gains what was delivered; an empty delivery closes; the callback is called exactly for a non-empty one |
| `TcpConnectionObject.TcpConnection.HandleClose` | src/net/TcpConnection.cc:349-357 | has the effect of the model's close |
| `TcpConnectionObject.TcpConnection.ConnectEstablished` | src/net/TcpConnection.cc:256-271 | the connection is up, reads and is registered |
| `TcpConnectionObject.TcpConnection.ConnectDestroyed` | src/net/TcpConnection.cc:274-283 | a connection that is up is taken down, and the channel is removed in every state |
| `TcpConnectionObject.Replay` | src/net/TcpConnection.cc:65-357 | a new connection driven through any sequence of sends, shutdowns, events and destructions ends in the state of the model's run, with its invariant |
| `HttpModel.RequestLineIsIdempotent` | src/http/HttpContext.cc:5-54 | parsing a request line again changes nothing more |
| `HttpModel.StopCanResume` | src/http/HttpContext.cc:61-118 | a loop that stopped for lack of bytes, or at a bad line, resumes as if it had not stopped |
| `HttpModel.ParseInTwo` | src/http/HttpContext.cc:57-160 | parsing a prefix and then the rest is parsing the whole |
| `HttpModel.AnySplitIsTheSame` | src/http/HttpContext.cc:57-160 | any split of the bytes gives the same state, request and unread bytes, up to the first complete request |
| `HttpModel.LoopEndsIff` | src/http/HttpContext.cc:57-160 | the loop ends exactly when it is not entered with a complete request, and then leaves what the model's parser leaves |
| `HttpModel.NeverSpins` | src/http/FileServer.cc:166-183 | whatever messages a connection has had, the loop over the next one ends |
| `HttpModel.ServedAtTheEnd` | src/http/FileServer.cc:166-183 | a request that becomes complete with the last byte of the last message is handed on then, once, and the context is fresh afterwards |
| `HttpModel.OneOfTwoIsRefused` | src/http/HttpContext.cc:59-85 | of two messages of one request, the first is answered 400 if it holds no good line, and the second if it does |
| `HttpRoundTrip.TrimRestores` | src/http/HttpRequest.h:108-124 | trimming removes the optional whitespace and nothing of a trimmed value |
| `HttpRoundTrip.MethodReadsBack` | src/http/HttpRequest.h:28-85 | setMethod undoes methodString |
| `HttpRoundTrip.FirstLineReadsBack` | src/http/HttpContext.cc:5-54 | a printed request line fills in the same method, path, query and version |
| `HttpRoundTrip.HeadersReadBack` | src/http/HttpContext.cc:92-118 | printed fields give back the last-wins map and end at the empty line |
| `HttpRoundTrip.PrintedMessageReadsBack` | src/http/HttpContext.cc:57-160 | parsing any printed well-formed message gives it back and consumes exactly its bytes |
| `HttpRoundTrip.RestStaysForLater` | src/http/FileServer.cc:166-183 | bytes behind a request in the same message stay for the next one |
| `HttpRoundTrip.AnyCutReadsBack` | src/http/HttpContext.cc:57-160 | and so does any way of cutting it into chunks |
| `HttpRoundTrip.OnlyUncutIsAccepted` | src/http/FileServer.cc:166-183 | a well-formed request without a body is handed on with its last byte however it is cut, and is answered 400 on the way exactly when it comes in more than one message |
| `HttpRoundTrip.CutRequestIsRefusedAndServed` | src/http/FileServer.cc:166-183 | a good request in two messages that is answered 400 and handed on |
| `HttpGrammar.LineIsAcceptedIff` | src/http/HttpContext.cc:5-54 | a request line is accepted exactly when it is a known method, a target without spaces and a known version, with one space in between |
| `HttpGrammar.GoodLineIsAccepted` | src/http/HttpContext.cc:5-54 | and then these are what the request gets |
| `HttpGrammar.TargetIsSplit` | src/http/HttpContext.cc:21-34 | the path is the target up to the first question mark and the query the rest |
| `HttpGrammar.BadLineFills` | src/http/HttpContext.cc:5-54 | a line that is not accepted leaves in the request everything up to where it goes wrong |
| `HttpGrammar.FirstMessageIsRefusedIff` | src/http/FileServer.cc:173-177 | a first message is answered 400 exactly when it holds no whole line of that form, and then nothing is consumed or handed on |
| `HttpGrammar.TrimIsExact` | src/http/HttpRequest.h:108-124 | trimming takes off exactly the whitespace at the two ends |
| `HttpGrammar.SpaceIs` | src/http/HttpRequest.h:112-118 | whitespace is the space and the codes from tab to carriage return |
| `HttpGrammar.HeaderLineIs` | src/http/HttpContext.cc:97-112 | a line with a colon sets the field before the first one to the trimmed rest; a line without ends the headers, empty or not |
| `HttpGrammar.AcceptsExactly` | src/http/HttpContext.cc:57-160 | any bytes make a complete head exactly when they begin with a good line, lines with a colon, and a line without |
| `HttpGrammar.RequestIsAccepted` | src/http/HttpContext.cc:57-160 | and then the request is what these lines say and the bytes behind them are left over |
| `ServerModel.SendsUpToTheEnd` | src/http/FileServer.cc:166-229 | over every run of messages and socket events, unless the socket was broken: the client is sent the replies up to the first 400 or closing response and nothing afterwards |
| `ServerModel.CutRequestGetsOnlyTheRefusal` | src/http/FileServer.cc:166-229 | the client of a good request without a body is sent its answer exactly when the request came in one message, and otherwise the 400 and nothing else |
| `ServerModel.KeptOpenIff` | src/http/FileServer.cc:186-229 | the connection of a good request is kept open exactly when it came in one message and does not ask for closing by its version and `Connection` field |
| `ServerModel.AnyMessagesArrive` | src/http/FileServer.cc:166-183 | there is a run for any sequence of messages |
| `HttpContextObject.TrimValue` | src/http/HttpRequest.h:111-122 | the two loops compute the trimmed value |
| `HttpContextObject.HttpContext.ProcessRequestLine` | src/http/HttpContext.cc:66-85 | a good line is consumed and a bad one left, with the request filled as modelled |
| `HttpContextObject.HttpContext.ProcessHeaderLine` | src/http/HttpContext.cc:94-113 | a field is added or the headers end, and the line is consumed |
| `HttpContextObject.HttpContext.ParseRequest` | src/http/HttpContext.cc:57-160 | the loop over the buffer ends, leaves what the model's parser leaves, and returns whether this call met a good request line |
| `HttpContextObject.HttpContext.Reset` | src/http/HttpContext.h:30-39 | state and request are those of a new context |
| `PollerModel.ChangeKeeps` | src/net/poller/EPollPoller.cc:66-104 | any enable or disable keeps poller and kernel in agreement |
| `PollerModel.RemoveKeeps` | src/net/poller/EPollPoller.cc:118-133 | removal keeps them in agreement |
| `PollerModel.InterestIsExact` | src/net/poller/EPollPoller.cc:66-156 | over every run the kernel watches exactly the added channels with their current masks, `channels_` holds exactly those not new, and no epoll_ctl is refused |
| `PollerModel.MasksBitByBit` | src/net/Channel.h:47-51 | what each operation does to each of the three bits of a mask |
| `PollerModel.KernelWatchesTheMask` | src/net/Channel.h:47-56 | over every run, after a change the kernel watches exactly the bits the change leaves: both read bits after enableReading, none of them after disableReading, and so on |
| `PollerModel.MasksAreIndependent` | src/net/Channel.h:47-56 | each mask operation changes its own direction only |
| `PollerModel.RemoveForgets` | src/net/poller/EPollPoller.cc:118-133 | removal makes poller and kernel forget the channel and leaves its mask and the others alone |
| `PollerModel.KernelRefusesIff` | src/net/poller/EPollPoller.cc:135-156 | when epoll_ctl is refused |
| `PollerModel.WatchedIff` | src/net/poller/EPollPoller.cc:66-104 | after a change of mask a channel is watched exactly when it was not watched before or its new mask has an event |
| `PollerModel.WatchedForNothingIff` | src/net/poller/EPollPoller.cc:66-104 | over every run, a change makes the kernel watch a channel for nothing exactly when it leaves a channel without events that was not watched |
| `PollerModel.SilentChannelComesBack` | src/net/poller/EPollPoller.cc:73-88 | a run in which disabling a silenced channel adds it again with no events |
| `PollerModel.NewChannelIsWatchedForNothing` | src/net/poller/EPollPoller.cc:73-88 | a run in which disabling a new channel adds it with no events |
| `EPollPollerObject.EPollPoller.Open` | src/net/Channel.cc:8-16 | a new channel is known to nobody and silent, as in the model |
| `EPollPollerObject.EPollPoller.Update` | src/net/poller/EPollPoller.cc:135-156 | has the modelled effect on the kernel's set |
| `EPollPollerObject.EPollPoller.UpdateChannel` | src/net/poller/EPollPoller.cc:66-104 | has the effect of the model's update |
| `EPollPollerObject.EPollPoller.RemoveChannel` | src/net/poller/EPollPoller.cc:118-133 | has the effect of the model's removal |
| `EPollPollerObject.EPollPoller.ChangeEvents` | src/net/Channel.h:47-51 | has the effect of the model's change of mask |
| `EPollPollerObject.Replay` | src/net/poller/EPollPoller.cc:66-156 | a new poller driven through any sequence of openings, changes, removals and destructions ends where the model's run does, in agreement with the kernel |
| `ThreadPoolModel.AddKeeps` | src/base/ThreadPool.cc:53-58 | adding a task keeps a worker active for it |
| `ThreadPoolModel.StopKeeps` | src/base/ThreadPool.cc:40-45 | stop leaves nobody asleep |
| `ThreadPoolModel.LockKeeps` | src/base/ThreadPool.cc:72-84 | a worker takes the oldest task, sleeps only on an empty queue and exits only on an empty queue after stop |
| `ThreadPoolModel.WorkersDecide` | src/base/ThreadPool.cc:40-95 | what each step does: a worker takes the oldest task, waits, or exits when there is none left after stop |
| `ThreadPoolModel.PoolIsSafe` | src/base/ThreadPool.cc:40-95 | over every interleaving: order, no lost wakeup, nobody asleep after stop, and after the last exit exactly the tasks added too late remain |
| `ThreadPoolModel.LastExitLeavesNothing` | src/base/ThreadPool.cc:74-79 | the queue is empty at the moment the last worker exits |
| `ThreadPoolModel.CanDrain` | src/base/ThreadPool.cc:60-95 | from every good state with a worker left, the workers alone can empty the queue |
| `ThreadPoolModel.CanExit` | src/base/ThreadPool.cc:60-95 | after stop the workers alone can all exit, leaving the queue empty |
| `ConnectionPoolModel.EarlyBreakIsFullScan` | src/mysql/ConnectionPool.cc:99-114 | on a sorted queue, stopping at the first fresh connection removes what a full scan at the last clock reading removes |
| `ConnectionPoolModel.StepKeeps` | src/mysql/ConnectionPool.cc:64-170 | each borrow, return, produce and recycle keeps the invariant |
| `ConnectionPoolModel.RunKeeps` | src/mysql/ConnectionPool.cc:13-170 | over every interleaving: idle and borrowed are disjoint, the counter is live plus ever created, live stays at or above the minimum and within the minimum or half the maximum, and the queue is sorted by refresh time |
| `ConnectionPoolModel.RecyclerIsExact` | src/mysql/ConnectionPool.cc:89-116 | in every reachable pool the recycler removes what a full scan limited by the minimum would, and the size is within the configured ones |
| `ConnectionPoolModel.RecyclesDownToTheMinimum` | src/mysql/ConnectionPool.cc:99-114 | a pass takes old enough connections from the front until it is down to the minimum or meets one that is not old enough |
| `ConnectionPoolModel.AgedIff` | src/mysql/ConnectionPool.cc:102 | a connection is old enough exactly when it has been idle for the limit in milliseconds |
| `ConnectionPoolModel.BorrowsLongestIdle` | src/mysql/ConnectionPool.cc:160-168 | a borrower gets the connection that has been idle longest |
| `ConnectionPoolModel.IdleSince` | src/mysql/ConnectionPool.cc:118-166 | idleness starts when a connection is made or given back, and what is given back joins the end of the queue |
| `ConnectionPoolModel.FillTimes` | src/mysql/ConnectionPool.cc:20-24 | each connection of the fill is idle from the moment it was made |
| `ConnectionPoolModel.ProducesIff` | src/mysql/ConnectionPool.cc:64-86 | the producer can make a connection exactly when it is awake over an empty queue and live plus ever created is below the maximum |
| `ConnectionPoolModel.DeadForever` | src/mysql/ConnectionPool.cc:64-86 | a pool that has used up its maximum and lost all connections never makes another |
| `ConnectionPoolModel.UsedUp` | src/mysql/ConnectionPool.cc:64-125 | for every configuration without a minimum, a run that makes and recycles as many connections as the maximum allows |
| `ConnectionPoolModel.CanDieIff` | src/mysql/ConnectionPool.cc:13-125 | a dead pool is reachable exactly when the minimum is zero, or negative with no room for a connection |
| `ConnectionPoolModel.SleepsOverEmptyQueue` | src/mysql/ConnectionPool.cc:70-114 | for every configuration without a minimum and with room, a run after whose one connection the producer sleeps over an empty queue |
| `ConnectionPoolModel.MissedByRecycling` | src/mysql/ConnectionPool.cc:89-116 | only the recycler, and only without a minimum, leaves the producer asleep over an empty queue |
| `ConnectionPoolModel.MissedEndsIff` | src/mysql/ConnectionPool.cc:64-170 | only a returned connection or a spurious wakeup ends that state |
| `ConnectionPoolModel.CanMissIff` | src/mysql/ConnectionPool.cc:13-125 | it is reachable exactly when the minimum is zero and the maximum positive |
| `ConnectionPoolModel.RecoversIff` | src/mysql/ConnectionPool.cc:64-170 | without spurious wakeups, a pool that has lost all connections gets one again exactly when its producer is awake and the maximum is not used up |
| `ConnectionPoolObject.ConnectionPool.constructor` | src/mysql/ConnectionPool.cc:13-31 | the fill makes the minimum number of connections, oldest first |
| `ConnectionPoolObject.ConnectionPool.AddConnection` | src/mysql/ConnectionPool.cc:118-125 | a connection refreshed now joins the end of the queue and the counter moves by one |
| `ConnectionPoolObject.ConnectionPool.ProduceConnection` | src/mysql/ConnectionPool.cc:64-86 | the producer goes to sleep over a queue that is not empty, and otherwise has the effect of the model's production, the counter moving by two |
| `ConnectionPoolObject.ConnectionPool.RecycleConnection` | src/mysql/ConnectionPool.cc:89-116 | the loop with its clock readings has the effect of the model's pass |
| `ConnectionPoolObject.ConnectionPool.GetConnection` | src/mysql/ConnectionPool.cc:137-170 | the oldest idle connection is handed out and the producer woken |
| `ConnectionPoolObject.ConnectionPool.ReturnConnection` | src/mysql/ConnectionPool.cc:161-166 | a returned connection is refreshed and joins the end of the queue |

## Left out

- HttpModel.NeverSpins: a POST stays in `ExpectBody` here, while the source takes what is in the buffer for its body, serves it and resets the context in the same call.
- HttpContextObject.HttpContext.ParseRequest: the body branch of a POST is left out, so a POST ends in `ExpectBody` instead of `kGotAll`.
- HttpModel.AnySplitIsTheSame: the body of a POST is not parsed; the parser is modelled up to the hand-over, because the multipart branch assumes the whole body is present and does not consume it.
- NetBuffer.Buffer.MakeSpace: for lengths whose `int` value is negative the source may shrink the vector under its content, or throw; the model reports this and leaves the content alone.
- NetBuffer.Buffer.EnsureWritableBytes: the same.
- ServerModel.SendsUpToTheEnd: the bytes of a response are a parameter, and `sendFile` after it is left out.
- NetBuffer.Buffer.Append: where the room cannot be made, the source writes past the end of its vector or throws; the model reports this and copies nothing. The connection's sends report it likewise and promise nothing more.
- ConnModel.RunKeeps: the model's output queue has no limit; the methods of the object say when theirs fails to grow.
- TimerModel.AddTimeIsExact: intervals are reals; floating-point rounding and 64-bit overflow are not modelled.
- AsyncLoggingObject.AsyncLogging.Append: buffers are values that carry their address; the owner of each is tracked by that address rather than by object identity.
- ThreadPoolModel.PoolIsSafe: the pool is modelled by the steps its threads take under the mutex, not as an object; tasks that throw are excluded.
- EventLoopModel.NeverStranded: `quit` from another thread is not covered, because it writes no wakeup; `runInLoop` on the loop thread runs its functor at once and never meets the queue.
- PollerModel.MasksAreIndependent: a mask is a set of its three bits; other epoll bits and the events poll returns are not modelled.
- `MemoryPool::destroyPool` reads a node after freeing it; `calloc` adds only the clearing of the range.
- `sendFile`: the rest of a file that does not go out at once is never sent, so no completion claim is possible.
- Sends from other threads: the string overload passes a raw pointer across threads.
- The write-complete and high-water callbacks of a connection, and the calls into user callbacks.
- `HttpResponse`, the HTML pages, directory listings, login and SQL: user interface and foreign calls.
- Acceptor, Socket, Thread, LogFile, FileUtil and the JSON configuration: thin wrappers over system calls and libraries.
- The round robin over loop threads and the MIME table would only add easy members.
