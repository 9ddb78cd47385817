# Cauli in Dafny

Cauli is a task queue on Redis Streams: Python clients enqueue JSON envelopes, Rust workers deliver,
run, retry and acknowledge them, and a periodic scheduler (`cauli-beat`) enqueues on a schedule. This
project models its state machines and algorithms in Dafny and proves what the code and its
documentation promise about them. `dafny verify dfyconfig.toml` checks everything.

| file | what it models |
|---|---|
| `StreamIds.dfy`, `Delivery.dfy` | stream, pending list, delayed set, completion writes, mover, trimmers and crashes as one interleaving machine |
| `CompletionFlush.dfy` | the completion flusher and the two round trips of one flush |
| `RetryBudget.dfy` | how often one task can be executed under crashes and lost acks |
| `SyncPool.dfy` | the sync pool's queue with its `parked` count and `standby` flag, over any thread interleaving |
| `CpuChild.dfy` | the event loop that serves one cpu child: window, prefetch, deadlines, recycling, exits |
| `DeadlineHeap.dfy`, `AsyncSubmit.dfy` | the async lane's lazily deleting deadline heap and its wake-only-when-empty submission queue |
| `RawJson.dfy`, `Codec.dfy` | the worker's byte scanner over raw JSON, and the client's recursive validator |
| `Calendar.dfy`, `CronFields.dfy`, `Crontab.dfy`, `Zones.dfy` | Gregorian dates, cron fields, the crontab scan over an abstract time zone, and zones that satisfy its assumptions |
| `Slots.dfy`, `Beat.dfy`, `BeatTick.dfy`, `CronEntries.dfy` | slot chains and fast forward, the claim and seed scripts under any number of replicas, one replica's tick, crontab entries under beat |
| `Idempotency.dfy` | the idempotency lease over timed runs |
| `Options.dfy`, `Collections.dfy` | the optional value, and facts about Dafny's own collections |

## How to read it

Code that computes is a function; code that updates objects is a class (`JobQueue`, `DeadlineHeap`,
`Pending`, `CrontabSchedule`, `Store`, `Replica`); loops over local variables are methods with
invariants. Each method's contract ties its new state to a function of the old one, and the theorems
are about that function. Protocols are state machines: a step predicate or function per atomic action
of the system, and theorems over every reachable state. Redis is a small contract: stream ids grow,
delivery is in order, a script is atomic but does not roll back, a torn pipeline executes a prefix.
Clocks, thread wakeups, socket writes, replies and arrivals are inputs that range over everything.

### Four places where the documentation says something else than the code

- `PROTOCOL.md:136` gives `(max_retries + 1) x (redelivery_limit + 1)` as the worst case of executions.
  A retry write that lands although its ack does not gives an attempt several successors, a mover
  script cut short between its publish and its remove gives it another, and an entry is claimed past
  the limit from a recovery page that another recoverer has overtaken, once for each entry the page
  lists. `RetryBudget.ExecutionsAreBounded` and `RetryBudget.TheBoundIsReached` give the exact worst
  case for any number of cut scripts and of such claims,
  `RetryBudget.WhenTheDocumentedBoundFails` says exactly when the product can be exceeded, and
  `RetryBudget.CleanRunsMeetTheDocumentedBound` in which runs it is kept.
- `worker/src/shim.py:620-621` says that the heap stays within twice the live deadlines. It need not,
  neither after a cancellation (`DeadlineHeap.CancelledPileUp`) nor after a firing
  (`DeadlineHeap.FiredFromAbove`). The contracts of `Add`, `Cancel` and `Fire` say exactly when it is,
  in terms of the state before the call; `DeadlineHeap.HeapStaysSmall` is the bound that always holds.
- `py/cauli/beat.py:4-5` calls the firing exactly once, and `PROTOCOL.md:138` at most once. A claim that
  fails after its publish and before its advance, or a seed that fails between its two writes, leads
  to a second publication. `Beat.AtMostOnceUnlessCutShort`: without these failures, and only without
  them, each slot fires at most once in every run; other failures do no harm.
- `py/cauli/schedules.py:237-238` says that a skipped wall time fires once. When the clock is moved on so
  late in the day that a skipped time is resolved into the next one, as in Nuuk every spring since 2024,
  `next_after` can start its scan behind it and lose it (`Zones.NuukLosesAFiring`).
  `Zones.EveryScheduleIsExactIff` says in which zones the scan is right for every schedule, and
  `Zones.ScanIsExactIff` for which schedules it is right in a given zone. In such a zone the skip policy,
  which `py/cauli/beat.py:511-512` says judges the newest slot, can also suppress a firing that is not late
  (`CronEntries.NuukSkipsAFreshFiring`); `CronEntries.SkipGoesByTheNewestSlot` says exactly when it does
  judge the newest slot. Firing at most once does not depend on any of this (`CronEntries.CrontabMovesOn`).

## Model

| member | source | states |
|---|---|---|
| StreamIds.AfterIsTheTightestBoundary | worker/src/broker.rs:457-465 | every id above a delivered one is at or above the trim boundary built from it, and the delivered id itself is below it unless its sequence number is the largest of 64 bits |
| Delivery.NoTaskIsLost | worker/src/broker.rs:275-332 | in every state of every run, with refused and half landed writes, torn acks, mover aborts, reclaims, trims and crashes, an enqueued task is undelivered in the stream, pending with its payload, in the delayed set, or has a landed terminal write |
| Delivery.InvKept | worker/src/dispatch.rs:266-353 | each of the eighteen kinds of step keeps the inductive invariant behind the delivery theorems |
| Delivery.PendingEntriesHavePayloads | worker/src/broker.rs:318-332 | no pending entry is ever without its stream entry, the reason for XACK before XDEL |
| Delivery.RetriesStayInBudget | worker/src/dispatch.rs:286-297 | no copy of a task in the stream, the delayed set or a worker's hands carries more retries than its maximum |
| Delivery.CompletionDecides | worker/src/dispatch.rs:266-306 | once a worker has decided and its writes have landed in any order: a forced retry, or a failure that may be retried, below the maximum puts the copy with one more retry into the delayed set and settles nothing; a success or a duplicate settles the task; everything else dead letters it; the result is stored where that is wanted; then XACK and XDEL take the entry off the pending list and the stream |
| Delivery.FlushTakesWritten | worker/src/broker.rs:301-332 | a flush acks and deletes exactly the entries of requests with every write answered and none refused |
| Delivery.BoundaryIsSafe | worker/src/broker.rs:436-455 | reading the last delivered id first and the pending list second gives a boundary at or below every pending and every undelivered id, whatever was delivered in between |
| Delivery.TrimTakesOnlyAckedEntries | worker/src/broker.rs:469-477 | with any number of trimmers whose two reads and XTRIM are separate steps that may fail, and whether or not the answer of an XTRIM is heard, it removes no pending and no undelivered entry |
| Delivery.BoundaryIsPastTheAcked | worker/src/broker.rs:436-455 | the boundary lies past every acked entry older than all pending ones, but for a last delivered one with the largest sequence number of 64 bits |
| Delivery.TrimTakesAllAcked | worker/src/loops.rs:181-209 | an undisturbed tick of a trimmer leaves none of those on the stream, whether it trims or finds its boundary unchanged |
| Delivery.SkippedTrimIsANoOp | worker/src/loops.rs:181-209 | at every later time, failed ticks in between included, an XTRIM to the boundary a trimmer remembers would remove nothing, so skipping an unchanged boundary is exact |
| Delivery.EveryTaskCanStillSettle | worker/src/loops.rs:423-523 | from every reachable state a continuation settles a given enqueued task iff the stream has an id left, or the task is settled, was handed to a worker, or is on the stream; so the only dead end is a task that never left the delayed set of a stream out of ids |
| Delivery.SwappedReadsDestroyAPendingEntry | worker/src/broker.rs:438-448 | with the pending list read first a delivery between the reads is trimmed away while pending |
| Delivery.SwappedMoverWritesLoseATask | worker/src/broker.rs:53-66 | a mover that removes before it adds and is cut short leaves a task nowhere |
| CompletionFlush.Owners | worker/src/broker.rs:279-285 | the owner table names for each command position the request whose command it is |
| CompletionFlush.FirstRefusals | worker/src/broker.rs:288-294 | each request keeps its first refused command, and only requests with a refused command keep one |
| CompletionFlush.WriteOutcomes | worker/src/broker.rs:286-300 | a request counts as written iff the trip succeeded and none of its own commands was refused, for any number of commands per request |
| CompletionFlush.Partition | worker/src/broker.rs:301 | written and refused requests are split completely and in order |
| CompletionFlush.FlushBatch | worker/src/broker.rs:275-315 | the XACK names exactly the entries all of whose writes were accepted, none when the trip of any write fails as a whole, each waiter is answered once, is told of success only for a written and acked entry, of its own first refused command if one was refused, and of a failed trip only if one failed |
| CompletionFlush.Flusher | worker/src/broker.rs:250-270 | batches in order followed by the open one are exactly what arrived, none is empty, none is above the batch size, the open one is below it, whenever a window elapses the batches so far hold all that arrived until then, and a batch below the batch size was closed by an elapsed window |
| RetryBudget.ExecutionsAreBounded | worker/src/loops.rs:494-521 | with a mover scripts of the task cut short and r claims of the task's entries made from overtaken recovery pages, a task is executed at most S(max_retries + 1) + a S(m) + r (1 + S(max_retries)) times, where S(n) sums the powers 1 to n of limit + 1, limit is the larger of 3 and max_retries + 1, and m is max_retries + 1 for a task held back at its enqueue, else max_retries |
| RetryBudget.TheBoundIsReached | worker/src/dispatch.rs:331-353 | for all max_retries, a and r some run with at most a cut scripts and r claims from overtaken pages reaches that number exactly |
| RetryBudget.WhenTheDocumentedBoundFails | PROTOCOL.md:134-137 | with at most a cut scripts and r claims from overtaken pages, some run exceeds the documented product iff max_retries is at least 1, or r is, or the task was held back and a is at least 1 |
| RetryBudget.OneCutScriptDoublesTheDocumentedBound | worker/src/broker.rs:57-66 | a countdown task with max_retries 0 whose mover script is cut short once can run 8 times where 4 are documented |
| RetryBudget.CleanRunsMeetTheDocumentedBound | PROTOCOL.md:136-137 | runs in which no entry lands a second retry write, no mover script is cut short and no entry is claimed from an overtaken page stay within the documented product, for tasks enqueued at once and held back |
| RetryBudget.BudgetIsAPowerSum | worker/src/envelope.rs:309-314 | the recursive budget per attempt equals the power sum |
| SyncPool.JobQueue.Submit | worker/src/pyrt.rs:788-796 | accepts iff fewer than capacity jobs are queued; a refusal changes nothing, an accepted job goes last, and a standby is woken iff none is and a thread is parked |
| SyncPool.JobQueue.Take | worker/src/pyrt.rs:654-664 | an arriving thread clears the flag, the first job leaves, and a standby is woken iff work remains |
| SyncPool.JobQueue.EnterWait | worker/src/pyrt.rs:639-643 | a thread parks iff the queue is empty |
| SyncPool.JobQueue.AfterWait | worker/src/pyrt.rs:643-648 | a woken thread that finds nothing stands down and parks again |
| SyncPool.JobQueue.WakeStandby | worker/src/pyrt.rs:666-671 | at most one standby at a time |
| SyncPool.InvKept | worker/src/pyrt.rs:635-672 | every critical section of every thread, with spurious wakeups and notifies that find no waiter, keeps: parked counts the waiting threads, a queued job means a standby or no thread parked, a standby means that some thread is on its way to take |
| SyncPool.RoomAccepts | worker/src/pyrt.rs:788-796 | a submission is always possible; a queue below capacity accepts it at its end and wakes a parked thread iff none is on its way for an earlier job; a full queue refuses it and nothing changes |
| SyncPool.HeldJobStarts | worker/src/pyrt.rs:686-699 | the next step of a thread that took a job starts it, unless its requester has given up |
| SyncPool.QueuedJobIsNeverStranded | worker/src/pyrt.rs:771-781 | whenever a job is queued and some thread is parked, some thread is on its way |
| SyncPool.FreeThreadTakesTheOldestJob | worker/src/pyrt.rs:639-664 | any given thread not inside a job takes the oldest job in at most two steps, both its own: entering or waking, then taking |
| SyncPool.JobWaitsOnlyBehindBusyThreads | worker/src/pyrt.rs:771-781 | a queued job has a thread free to take it unless every thread is inside a job |
| SyncPool.JobsLeaveInOrder | worker/src/pyrt.rs:788-796 | what was taken is a prefix of what was accepted, the rest is the queue, never above capacity and never twice |
| SyncPool.AbandonedJobNeverStarts | worker/src/pyrt.rs:686-699 | a job whose requester gave up before its start never starts |
| CpuChild.ArmStarted | worker/src/cpu.rs:718-735 | of the listed requests exactly the first `concurrency` have a deadline, running clocks are not touched, new ones start now |
| CpuChild.LoopHead | worker/src/cpu.rs:811-830 | the slot is idle iff it could start a request, its share of the idle count follows, and the stall clock runs only while a partial write has nothing in flight |
| CpuChild.Receive | worker/src/cpu.rs:872-892 | a request is taken only within window and recycle budget, and the loop's invariant survives |
| CpuChild.Progress | worker/src/cpu.rs:905-907 | a partial write only advances |
| CpuChild.Sent | worker/src/cpu.rs:907-919 | a fully written request joins the end of the window, the in-flight count grows by one, running clocks stay |
| CpuChild.Respond | worker/src/cpu.rs:838-854 | the answered request leaves the window, is told once, the next one is armed, and a recycle happens only with an empty window and no partial write |
| CpuChild.Removed | worker/src/cpu.rs:839-846 | the window without one request is listed in the same order and armed up to `concurrency` again |
| CpuChild.Handle | worker/src/cpu.rs:831-953 | whatever the select ends with, the state becomes what that event calls for and the loop ends exactly for the events that end it: a response line in the window, and only such a line, is told Resp; a request is taken iff it may be; the invariant holds and an exit is justified by the state |
| CpuChild.Drain | worker/src/cpu.rs:964-973 | every request left is told once, Timeout iff the child was killed for a deadline and its own has passed |
| CpuChild.Finish | worker/src/cpu.rs:956-978 | after the exit path every accepted request has exactly one answer and both counters are back |
| CpuChild.ServeChild | worker/src/cpu.rs:776-984 | for every sequence of events, each turn does what its event calls for and keeps the window, budget, clock and conservation invariants, until one ends the loop; told by then is a response for exactly the response lines of requests in flight, in order, and taken are exactly the requests that came when one could be; after the exit every one of these has exactly one answer |
| CpuChild.BooksAreExact | worker/src/cpu.rs:831-892 | at every turn, told so far is a response for exactly the response lines of requests in flight, and taken so far exactly the requests that came when one could be |
| CpuChild.AdmissionIsExact | worker/src/cpu.rs:811-819 | a request that arrives is taken iff nothing is being written, fewer than concurrency plus prefetch are in flight, one could start at once or no other slot is idle, and answered plus in flight are below a recycle budget if there is one |
| CpuChild.WindowFills | worker/src/cpu.rs:800-806 | without a recycle budget and with no other slot idle, arrivals written in full fill the window to exactly concurrency plus prefetch |
| CpuChild.DeadlineEndsTheLoop | worker/src/cpu.rs:937-943 | the deadline timer ends the loop iff one of the oldest `concurrency` requests has had its whole timeout since it started |
| CpuChild.WedgedIffStalled | worker/src/cpu.rs:822-830 | a child is presumed wedged iff at its stall timer one request has been partly written with nothing in flight, without a break, for the smaller of its timeout and five seconds |
| CpuChild.RecycledAtItsBudget | worker/src/cpu.rs:846-853 | with a recycle budget the loop ends in a recycle exactly when that many requests were answered, and never answers more |
| CpuChild.RecycledAbandonsNothing | worker/src/cpu.rs:847-853 | a child recycled on plan leaves every request it ever took with a response |
| CpuChild.WedgedLosesOnlyThePartialWrite | worker/src/cpu.rs:944-951 | when a child is presumed wedged the one further answer is Lost, for the request it never read whole; all before were responses |
| CpuChild.TimeoutsAreEarned | worker/src/cpu.rs:964-972 | a request told Timeout was among the oldest `concurrency` outstanding and its whole timeout passed since it started |
| CpuChild.TimeoutsAreExact | worker/src/cpu.rs:964-973 | of the requests left exactly those are told Timeout that were among the oldest `concurrency` and had their whole timeout since they started, and only after a hard timeout |
| CpuChild.HardTimeoutTellsOne | worker/src/cpu.rs:937-943 | a hard timeout tells at least one request so |
| DeadlineHeap.DeadlineHeap.Add | worker/src/shim.py:643-649 | the entry joins the live set under a fresh number and the timer moves up iff it is the earliest; the heap is then within twice the live ones iff the dead ones were at most one more than the live ones |
| DeadlineHeap.DeadlineHeap.Cancel | worker/src/shim.py:651-662 | exactly that entry leaves the live set, one already gone changes nothing, a cancellation leaves no more dead entries than the larger of 100 and the live ones, and leaves the heap within twice the live ones iff it compacts or the dead entries were at least two fewer than the live ones |
| DeadlineHeap.DeadlineHeap.Fire | worker/src/shim.py:670-686 | exactly the live entries due within the slack are cancelled, in order of deadline then submission, each once, the later ones stay live, the timer is armed for the earliest entry left, and the heap is then within twice the live ones iff the later dead entries behind the first later live one are no more than the later live ones |
| DeadlineHeap.DeadlineHeap.PopDue | worker/src/shim.py:673-681 | the first loop removes exactly the stored entries that are due and fires the live ones among them |
| DeadlineHeap.DeadlineHeap.DropDeadTop | worker/src/shim.py:682-684 | the second loop removes only dead entries, none behind a live one, and leaves a live top |
| DeadlineHeap.TimerIsNeverLate | worker/src/shim.py:626-631 | while a live deadline exists the timer is armed no later than it |
| DeadlineHeap.HeapStaysSmall | worker/src/shim.py:620-623 | the dead count is exact and the heap holds at most the live entries plus the larger of 100 and their highest number so far |
| DeadlineHeap.LeftAfterFiring | worker/src/shim.py:674-684 | what a firing leaves stored are the later live entries and the dead ones behind the first of them |
| DeadlineHeap.CancelledPileUp | worker/src/shim.py:656-659 | a hundred cancellations leave a heap of 101 entries for one live deadline |
| DeadlineHeap.FiredFromAbove | worker/src/shim.py:674-684 | a firing leaves a heap of 102 entries for one live deadline |
| DeadlineHeap.FiredAll | worker/src/shim.py:674-681 | popping everything due in heap order fires all that is live and due and nothing else |
| DeadlineHeap.TopIsLeast | worker/src/shim.py:646 | the root of a heap is its least entry |
| AsyncSubmit.Pending.Submit | worker/src/shim.py:583-607 | at the cap nothing is queued and the caller is told, below it the task goes last and the loop is woken iff the list was empty |
| AsyncSubmit.Pending.Drain | worker/src/shim.py:556-559 | the whole list leaves in order |
| AsyncSubmit.RoomAccepts | worker/src/shim.py:583-607 | a list below its cap accepts at its end and wakes the loop iff it was empty; a full one refuses and nothing changes |
| AsyncSubmit.NoSubmissionIsStranded | worker/src/shim.py:568-607 | with any number of submitters: tasks start in order of acceptance and each once, the list stays within its cap, and exactly one wakeup is on its way iff something waits |
| AsyncSubmit.EveryAcceptedTaskStarts | worker/src/shim.py:554-565 | from any reachable state the wakeup and loop turns already under way start every accepted task |
| RawJson.FullScanIsExact | worker/src/dispatch.rs:90-121 | on every JSON text the scan accepts iff nesting is at most 126 and every `\u` surrogate is half of a proper pair, and never goes out of bounds or below depth zero |
| RawJson.ScanValue | worker/src/dispatch.rs:91-119 | over the text of any value in any context the scanner comes out at the depth it went in, or refuses |
| RawJson.ScanUnits | worker/src/dispatch.rs:93-108 | over the characters of any string it reaches the closing quote iff all surrogates pair up |
| RawJson.CountOpens | worker/src/dispatch.rs:74-80 | the sum of per-chunk counters no wider than a byte is the number of opening brackets |
| RawJson.FewOpensFit | worker/src/dispatch.rs:81-83 | nesting never exceeds the number of opening brackets, and a text without backslash has no surrogate escapes |
| RawJson.ScanEscape | worker/src/dispatch.rs:93-106 | one escape is skipped, or refused, as the full scan would |
| RawJson.FullScan | worker/src/dispatch.rs:91-121 | the loop computes the scan |
| RawJson.ParsesAsTree | worker/src/dispatch.rs:70-122 | fast path and scan together answer true iff a tree parse accepts |
| RawJson.ArgsKwargsShapeOk | worker/src/dispatch.rs:56-62 | accepts iff args is null or an array and kwargs null or an object, and both fit a tree parse |
| Codec.ValidateIsExact | py/cauli/_codec.py:80-140 | the validator accepts exactly the values of JSON types with finite floats and string keys in which no container starts below level 127 |
| Codec.RefusalNamesTheFirstOffence | py/cauli/_codec.py:52-66 | a refusal is about the first offence in document order, with its path innermost first |
| Codec.OffencePathLeadsToIt | py/cauli/_codec.py:69-77 | following an offence's path from the checked value leads to a value that offends in that way |
| Codec.EncodingKeepsNesting | py/cauli/_codec.py:143-159 | an encoded value is nested as deeply as the value, with no surrogate escapes |
| Codec.ClientAndWorkerAgreeOnDepth | worker/src/dispatch.rs:56-122 | the client accepts a whole envelope of JSON types from level 1 with limit 127 iff the worker's scan accepts the text of both argument containers with limit 126 |
| Codec.RefusedEnvelopeIsTooDeep | py/cauli/_codec.py:93-94 | such an envelope is refused only for its nesting, and the path has 127 segments and ends at the container one level too deep |
| Calendar.NextDayIsNext | py/cauli/schedules.py:358 | the next date's ordinal is one higher, over month, year and leap boundaries |
| Calendar.OrdinalIsMonotone | py/cauli/schedules.py:345-358 | dates are numbered in calendar order and no two alike |
| Calendar.WeekdaysGoRound | py/cauli/schedules.py:288-289 | with Sunday as 0 the weekday of the next date is the next one, Saturday being followed by Sunday |
| Calendar.EpochWasAThursday | py/cauli/schedules.py:288-289 | the count starts right: 1 January 1970 is weekday 4 |
| Calendar.WhatIsPossible | py/cauli/schedules.py:284-296 | a day rule matches no date at all iff only days of the month are restricted and none of its months ever has one of them |
| Calendar.WindowSuffices | py/cauli/schedules.py:59-61 | after any day, a rule that matches some date matches one within the 2928 scanned days |
| Calendar.WindowIsNeeded | py/cauli/schedules.py:59-61 | after 29 February 2096 the rule for that day matches nothing for 2920 days |
| CronFields.AddRange | py/cauli/schedules.py:221 | the stepped range is added, no more and no less |
| CronFields.WhatIsAccepted | py/cauli/schedules.py:156-213 | an element is accepted iff it is not blank, its step is a number of at least 1, its numbers are in range and its first is at most its last; each other one gets the first of its faults |
| CronFields.MatchesAreSteps | py/cauli/schedules.py:206-221 | an accepted element matches its first value plus whole steps up to its last; a star stands for the whole range, a lone value for itself or with a step above 1 for all from it on |
| CronFields.ParsePart | py/cauli/schedules.py:197-221 | one element fails with the first fault the code looks for, or adds exactly the values it matches |
| CronFields.ParseField | py/cauli/schedules.py:171-224 | the first faulty element's error, or exactly the union of what the elements match; the matches-nothing error cannot arise |
| CronFields.ParseCron | py/cauli/schedules.py:265-277 | five fields with their ranges, weekday 7 folded to 0, restriction and fold flags from the text; it succeeds iff all five do |
| Crontab.HoursTimesMinutes | py/cauli/schedules.py:280-282 | the wall times of a day are hours times minutes, sorted, each once |
| Crontab.ResolveDay | py/cauli/schedules.py:324-334 | the list of a shifting day is exactly its instants in order, a second occurrence included only if it is later and wanted |
| Crontab.BisectRight | py/cauli/schedules.py:348-350 | the number of listed instants at or before the given one |
| Crontab.FirstOnSteadyDay | py/cauli/schedules.py:351-357 | on a day with one offset the loop finds the first firing after the given instant, so pruning by the clock reading loses nothing |
| Crontab.CrontabSchedule.ShiftingDayInstants | py/cauli/schedules.py:313-335 | the memo always holds the day's instants |
| Crontab.CrontabSchedule.NextAfter | py/cauli/schedules.py:337-362 | returns, from the day the clock shows on, the first firing after the given instant on the first matching day that has one, which is the least firing after it in the zones where the scan is exact for the schedule; or the impossible-expression error iff no date of the calendar matches |
| Crontab.FiringDates | py/cauli/schedules.py:284-296 | the dates a schedule has a firing on, by its fields: every date of a listed month if days are not restricted; of these those on a listed weekday, or a listed day of the month, if only that is restricted; with both restricted exactly the dates of the two schedules with one of them a star |
| Crontab.WindowExhausted | py/cauli/schedules.py:345-362 | a window scanned without a find proves that no date matches |
| Crontab.FiringsAround | py/cauli/schedules.py:339-345 | firings of days after the one the clock reads are to come, and those of earlier days are past if days are apart |
| Crontab.ApartIsExact | py/cauli/schedules.py:337-362 | in any zone where a day's minutes, skipped ones included, are over before a later day's begin, what the scan finds is always the next firing |
| Crontab.ScanFinds | py/cauli/schedules.py:59-61 | for a schedule that is not impossible the scan finds something from any moment |
| Crontab.PrunedIsPast | py/cauli/schedules.py:343-355 | a wall time before the clock reading on a day with one offset is past |
| Crontab.CrontabSchedule.AdvancePastWithMissed | py/cauli/schedules.py:92-107 | returns the slot that stepping by the scan reaches and the count of passed slots if it is at most 10,000, else no count and what the scan finds from now; where the scan is exact that is the slot that stepping without bound would reach |
| Crontab.JumpIsStepping | py/cauli/schedules.py:102-104 | where the scan is exact, the jump past the bound lands where stepping would |
| Crontab.MissedAreFirings | py/cauli/schedules.py:95-107 | where the scan is exact, the missed count is the number of firing instants after the slot and not after now |
| Crontab.ChainSteps | py/cauli/schedules.py:3-9 | where the scan is exact, from anywhere in a gap the next slot is the same, so replicas whose clocks disagree compute the same one |
| Zones.OneChangeADayIsOk | py/cauli/schedules.py:298-311 | every zone whose offset is in whole minutes and changes at most once a day, from one time of that day to another, leaving at least half a day of it, each day starting with the offset the last one ended with, meets the assumptions of the crontab theorems, however often it changes |
| Zones.FiresByTheClock | py/cauli/schedules.py:298-304 | on a day without a change, the one before not having moved the clock on, a schedule fires exactly at the whole minutes at which the clock shows one of its hours, one of its minutes and a date that its day fields match |
| Zones.ScanIsExactIff | py/cauli/schedules.py:337-362 | in such a zone the scan finds the next firing of a schedule from every moment iff firings that skipped times push to the end of their day or past it do no harm: one past it is a firing of the next day too, and from the end on the first of both days is the earlier day's |
| Zones.EveryScheduleIsExactIff | py/cauli/schedules.py:235-238 | the scan is exact for every schedule iff no change forward comes so late that a minute it skips, moved on by the change, begins past the end of its day |
| Zones.NuukLosesAFiring | py/cauli/schedules.py:339-358 | in Nuuk in 2024 a daily 23:30 schedule fires at 00:30 of 31 March, and everything the scan finds from 00:10 of that day is later |
| Zones.NuukJumpSkipsAFiring | py/cauli/schedules.py:100-104 | there, past 10,000 missed slots, the jump lands later than the firing that stepping would have reached |
| Zones.CentralEuropeIsOk | py/cauli/schedules.py:298-311 | so does summer time from the last Sunday of March to that of October in every year, and the scan is exact for every schedule |
| Zones.EveryMomentHasADate | py/cauli/schedules.py:339-342 | every moment falls inside such a local day |
| Zones.UtcIsOk | py/cauli/schedules.py:248 | so does UTC, and the scan is exact for every schedule |
| Zones.SkippedTimeFiresOnceLater | py/cauli/schedules.py:237-238 | a skipped wall time fires once, through the old offset, when the clock shows it moved on by the change |
| Zones.RepeatedTimeFiresFirst | py/cauli/schedules.py:235-236 | a repeated wall time fires at its first occurrence, and at its second iff the minute or hour field starts with a star |
| Slots.ClosedFormIsStepping | py/cauli/schedules.py:140-148 | the interval's closed form gives the slot and the missed count of the unbounded step loop |
| Slots.IntervalKeepsItsPhase | py/cauli/schedules.py:120-125 | the new slot is a whole number of intervals after the old one, strictly past now by at most one interval |
| Slots.SteppedIsPast | py/cauli/schedules.py:83-90 | fast forward ends strictly past both slot and now, one step after the newest missed slot |
| Slots.NewestIsNewest | py/cauli/schedules.py:83-90 | nothing on the chain lies between the newest missed slot and now |
| Slots.SteppingIsOneJump | py/cauli/schedules.py:102-104 | for a schedule that is a set of slots, stepping past now is one step from now |
| Slots.NewestSlotDecides | py/cauli/beat.py:510-518 | the skip policy suppresses a due firing iff the newest missed slot is later than tolerated |
| Beat.EachSlotFiresAtMostOnce | py/cauli/beat.py:57-85 | for any entries whose fast forward ends on a slot past both slot and now, as that of every interval and every crontab does, or whose schedule is impossible, any number of replicas with arbitrarily stale reads and clocks, and scripts failing anywhere but between publish and advance or between the two writes of a seed: slots published for an entry strictly increase and its run count is their number |
| Beat.SeedingTakesEffectOnce | py/cauli/beat.py:77-85 | exactly one seed call ever sets an entry's slot, whatever claims fail, as long as no seed is cut short between its two writes |
| Beat.NoSlotIsLostToAFailedScript | py/cauli/beat.py:57-60 | wherever claim or seed scripts fail, no slot moves on without having been published, unless it was to be skipped |
| Beat.AtMostOnceUnlessCutShort | py/cauli/beat.py:57-85 | for any such entries and any set of ways in which scripts may fail: all runs of all replicas fire each slot at most once iff no claim may fail between its publish and its advance and no seed between its two writes, or no entry has a possible schedule |
| Beat.CutShortPublishesAgain | py/cauli/beat.py:61-75 | in every state, a claim cut short there leaves the slot due and the next claim of it publishes it again |
| Beat.TwiceRun | py/cauli/beat.py:61-75 | for every schedule and both places to be cut at, two claims cut alike publish one slot twice |
| Beat.ReseededRun | py/cauli/beat.py:77-85 | for every schedule, a seed cut short is repeated by a slower replica and the slot is published twice |
| Beat.UncutClaim | py/cauli/beat.py:269-318 | a lost claim, and one failing before its publish, change nothing; any other uncut one moves the slot strictly on, publishes and counts once iff it has a target, and records the firing unless it failed there |
| Beat.SeedSeeds | py/cauli/beat.py:237-250 | where a stored slot carries its entry's fingerprint, an uncut seed call takes effect iff the entry had no slot, gives it the schedule's next one after now, changes nothing else, and keeps the fingerprints so |
| Beat.OnlySlotsOfTheScheduleFire | py/cauli/beat.py:455-459 | every stored and published slot is one that the schedule names |
| Beat.SuppressesIffTooLate | py/cauli/beat.py:510-518 | the code's test is the newest-slot test iff the fast forward it makes and stepping end on the same side of now, so always where fast forwarding is stepping |
| Beat.IntervalIsASchedule | py/cauli/schedules.py:120-148 | interval entries meet what the beat theorems ask of a schedule |
| Beat.ScheduleMovesOn | py/cauli/schedules.py:81-90 | an entry whose fast forward is unbounded stepping, as that of an interval, meets what the theorems on firing ask |
| CronEntries.CrontabIsASchedule | py/cauli/schedules.py:92-107 | the fast forward of crontab entries whose scan is exact, with its bound and jump, is unbounded stepping |
| CronEntries.CrontabMovesOn | py/cauli/schedules.py:86-107 | the fast forward of every crontab entry, exact or not, ends strictly past slot and now on a slot of the schedule, so the jump past the bound never duplicates one and the theorems on firing apply |
| CronEntries.PublishedAtItsInstants | py/cauli/beat.py:502-508 | whatever replicas do and however scripts fail, every crontab entry, exact or not, is published only for instants of its schedule |
| CronEntries.SkippedIffNoInstantIsRecent | py/cauli/beat.py:510-518 | where the scan is exact, a due crontab firing is skipped iff it is too late and the schedule has no instant within the tolerated lateness before now |
| CronEntries.SkipGoesByTheNewestSlot | py/cauli/beat.py:510-518 | for every crontab: the skip decision is the newest-slot test iff at most 10,000 slots lie before the tolerated span, or one scan from there and stepping on both find a slot in the span or neither does |
| CronEntries.NuukSkipsAFreshFiring | py/cauli/beat.py:511-518 | in Nuuk in 2024, after more than 10,000 missed slots and with a tolerance of just under twenty minutes, a firing due this moment is suppressed |
| BeatTick.Store.Due | py/cauli/beat.py:263-267 | due entries in slot order, each once: all of them, or as many as the limit allows with none later than one left out |
| BeatTick.Replica.Fire | py/cauli/beat.py:502-596 | for any entry: does nothing and reports failure if the schedule is impossible, or the code's skip test fails and the envelope could not be built; otherwise claims, for the fast forwarded slot, with a target iff the test fails, reports failure iff the script failed, and counts a claim that did not fail under one of fired, skipped and lost |
| BeatTick.Replica.SeedAll | py/cauli/beat.py:441-465 | an enabled entry without a slot under its fingerprint gets the schedule's next slot after now and the fingerprint, one with such a slot or with an impossible schedule keeps what it has, a disabled one has none, and nothing else changes |
| BeatTick.Replica.DropOrphans | py/cauli/beat.py:467-475 | exactly the slots without a definition go |
| BeatTick.Replica.FireAll | py/cauli/beat.py:484-497 | each due entry that can be fired is fast forwarded past now and published once iff not suppressed, the others keep their slots, and the failed set is exact; for entries as in the theorems on firing, inexact crontabs and impossible schedules included |
| BeatTick.Replica.Tick | py/cauli/beat.py:434-500 | after a tick nobody interferes with, over any such entries, only live entries have slots; the due list is what the seeded slots make due, the earliest if there are more than fit; the publications are exactly those of the listed entries that could be fired and were not suppressed; listed entries that could be fired are fast forwarded past now and all others keep their seeded slot |
| BeatTick.DueWasStored | py/cauli/beat.py:441-482 | what a tick finds due was stored before it, under the fingerprint of its entry if its schedule is possible, since a newly seeded slot lies ahead |
| BeatTick.WhatIsSeeded | py/cauli/beat.py:441-465 | the slot each entry has in a tick: a stored one under its fingerprint, else the next after now, what is stored for an impossible schedule, none for disabled and undefined entries |
| BeatTick.NothingBeforeTheSeed | py/cauli/beat.py:455-459 | for a schedule that does not go back in time, no moment from now on has its next slot before a newly seeded one |
| BeatTick.WhoCanFire | py/cauli/beat.py:502-545 | an entry that is suppressed, or whose envelope could be built, can be fired, and one with an impossible schedule cannot |
| BeatTick.PublishedOf | py/cauli/beat.py:484-497 | the publications of a due list are exactly the slots of its entries that can be fired and are not suppressed, each to where its envelope goes |
| Idempotency.LeaseCoversAnExecution | worker/src/broker.rs:148-155 | a renewed lease covers timeout plus grace iff that sum fits 64 bits, and a first lease does whenever it fits |
| Idempotency.StartedTakesTheLease | worker/src/broker.rs:135-146 | a claim is fresh iff the key is free, and whoever is allowed to execute holds a lease at least as long as the execution |
| Idempotency.NeverConcurrent | worker/src/dispatch.rs:215-250 | if executions end within timeout plus grace of their claim and no claim fails open, two tasks never execute at one instant under one key, in every timed run |
| Idempotency.HolderIsNeverADuplicate | worker/src/broker.rs:121-156 | however often it is renewed, until the configured lifetime, or if longer the timeout plus two seconds rounded up, has passed since a claim, a retry or redelivery of its task executes and renews, and any other task is told it is a duplicate and of which task |
| Idempotency.KeyIsHeldExactly | worker/src/broker.rs:135-156 | and without a renewal for exactly that long: whoever claims from then on finds the key free |
| Idempotency.TtlIsLonger | worker/src/broker.rs:148-155 | the computed lease is the one number of whole seconds that is the longer of the two |
| Idempotency.FailingOpenAllowsTwo | worker/src/dispatch.rs:245-249 | a claim that fails open can start a second task while the first still runs |

## Left out

- Redis client, connections, cluster probing, TLS, command line, supervisor, logging, statistics, benchmarks and framework glue: input and output or wiring.
- Redis itself beyond the contract above; dataset resets, failover, the dead letter stream's own bounds: a landed dead letter write is terminal.
- The consumer reaper (worker/src/loops.rs:365-419): its read and its delete are separate calls and the code itself reports the revive case.
- How long executions take: `Idempotency.NeverConcurrent` takes the end within timeout plus grace as its hypothesis, because the lanes may wait before they run.
- Runs of beat in which entries are edited, disabled or deleted meanwhile: dropping a slot also forgets its fingerprint, so the theorems over many replicas keep the definitions fixed. The tick's branch for a definition that vanished during the tick is not in `BeatTick.Replica.FireAll` for the same reason.
- The beat lease, its sleep computation and building an envelope: a lease is not needed for the theorems, and an envelope that cannot be built is an input.
- Real time zone data and years outside 1 to 9999: zones are functions whose clock never goes back to an earlier day, dates go on in both directions.
- Splitting cron text at commas, slashes and dashes, month and weekday names: fields arrive split, names resolved.
- Float rounding, jitter, backoff, digests, PyO3, asyncio, sockets, process control.
- The soft and hard timeouts of `py/cauli/_exec.py`: its watchdog has a documented residual race.
- Subclasses of the builtin types in the validator, cyclic values, and strings with lone surrogates: a subclass takes the same branch as its base, a cycle is not a finite value, and the encoder refuses the last.
- The pages of the mover and of the recovery loop (worker/src/loops.rs:133-154, 237-273), the idle time an entry needs before it is reclaimed, and expiry: the delivery machine may move any delayed copy and reclaim any pending entry at any time, which covers more runs than the loops produce.
- RawJson.ParsesAsTree: text that is not JSON does not reach it, so JSON is its precondition.
- CpuChild.ServeChild: the child's process id, the kill, and the cap of a deadline beyond the range of the clock are not modelled; a request whose write fails is told Lost by the exit path instead of just before it; of the counter shared by all slots only this slot's share is tracked.
- DeadlineHeap.DeadlineHeap.Fire: an entry's task cell, cleared in place, is a map on the heap object; `heapq` is its contract, with a sorted listing standing for the heap.
- AsyncSubmit.NoSubmissionIsStranded: one loop; which loop a submission goes to by turns is not part of it.
- BeatTick.Replica.Tick: the tick's scripts succeed; scripts that fail are part of the theorems over many replicas.
- Crontab.CrontabSchedule.NextAfter: zones whose clock goes back to an earlier day (St. John's until 2011), and days with two changes that cancel each other, are not covered; zones that skip a calendar day are.
- Zones.ScanIsExactIff: zones with several changes on one day, or a day shorter than half its length as when one is skipped, are not covered; `Crontab.ApartIsExact` gives a sufficient condition for all zones.
- Idempotency.HolderIsNeverADuplicate: the key lifetime is the same for all claims; the empty claimant of a key that expires inside the script cannot arise while a script is one instant.
