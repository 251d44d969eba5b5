# Verified models of the on-board software

Dafny models of the parts of the repository with the most state, branching or arithmetic, and proofs of
what they are for. `dafny verify dfyconfig.toml` checks everything.

**FreeRTOS lists and co-routines** (`freertos/src/list.c`, `freertos/src/croutine.c`).

- `ListViews` says what a kernel list is as a value: its entries in order and the place of the walking
  index. `RoundRobin` proves the fairness of walking such a list. `KernelList` is the C code on nodes with
  next, previous and container pointers; each operation is proved to keep the circle and to change the
  value as `ListViews` says. `ListFamily` adds that an operation on one list leaves all others alone.
- `CoRoutines` is the scheduler as a state machine. One action is one stretch of code that an interrupt
  cannot split as far as shared data goes; an interrupt (an unblocked co-routine, or a tick of the kernel)
  may come between any two. `CoRoutinePlaces`, `CoRoutineTiming` and `CoRoutineOrder` prove what every
  action keeps, `CoRoutineGuarantees` what follows for whole runs, and `CoRoutineEvents` that every event is
  served by the next call of the scheduler. The `History` of a state is not read by
  any action; it records true time and the order of delays, events and time-outs for the theorems.
- `CoRoutineMemory` and `CoRoutineScheduler` are the C functions on control blocks and lists in memory, with
  a given, arbitrary, list of interrupts at each point where the source has them enabled. Every stretch of
  code is proved to take the action of the state machine, so every theorem about runs holds of the code.

**Self-contained parts.** `Crc` (CRC-16-CCITT), `ImageCopy` (copying one software image over the other in
many calls), `SdCardAccess` (access tokens and the change of the active card), `BootSelection` (which image
is booted, over reboots), `PreferredCard` (how these two read the same FRAM value), `PusParser` (splitting a
frame into packets), `FileCommands` (paths and names on the wire), `Timestamp` (UNIX time in closed form),
`Counter64` (a 64-bit count from a 32-bit counter).

Where the code changes state step by step there is a class with methods; each is proved against a function
on values or a state machine, and the theorems are about that. What comes from outside (interrupts,
results of file and memory transfers, clocks) is a parameter, and the theorems are for all its values.

## Assumptions

- `MutexGuard(...)` in `bsp_sam9g20/memory/SDCardAccess.cpp:14`, `:55` and
  `bsp_sam9g20/memory/SDCAccessManager.cpp:53`, `:63` is an unnamed temporary that gives the lock back at once. The
  comment at `bsp_sam9g20/memory/SDCardAccess.cpp:17` shows the intent: `SdCardAccess` takes each of these
  bodies as one atomic step.
- In `CoRoutines`, an access to the pending list or an event list is atomic with respect to interrupts,
  either because they are disabled there or because it is a single read. Co-routines are created when the
  scheduler is not inside its own loops (by the application or the running co-routine), and delay
  themselves only while they run and once per run.
- A `VolumeId` has one byte, as enumerations of few values have on the target (`PreferredCard.SameVolumeWithWideIdsExactly`
  says what changes if it is wider).
- Memory for a control block is there when `xCoRoutineCreate` asks for it.

## Where the code and its comments differ

- `freertos/include/freertos/list.h:381-384` says that an item inserted with `vListInsertEnd` is returned after every
  other item. This is so exactly when the index stands on the end marker
  (`RoundRobin.NewEntryWaitsForAllExactlyAtMarker`); otherwise the entry returned last comes after the new one.
- `vCoRoutineAddToDelayedList` with a delay of zero breaks the timing of the delay lists
  (`CoRoutineTiming.OnlyZeroDelayBreaksTiming`); its callers never ask for one (`freertos/src/queue.c:2447`).
- `stepCounter` is 16 bits wide (`bsp_sam9g20/core/ImageCopyingEngine.h`), and a call that starts when it is back at
  zero deletes the target: with an image of more than 65536 chunks the copy can finish without its beginning
  (`ImageCopy.WrappedCounterLosesTheBeginning`), and already at 65536 an unfinished one can have lost everything
  (`ImageCopy.WrappedCounterLosesAll`). `FinishedCopyIsFaithfulExactly` has the exact condition.
- `bsp_sam9g20/core/SoftwareImageHandler.cpp:374-386` reports that it is busy, and then starts the engine again all the
  same, which resets nothing. With the other slot, once a call has opened the files, such a copy never finishes
  unless it is turned back (`ImageCopy.RestartMidCopyNeverFinishes`, `ImageCopy.BegunCopy`); it leaves the good image alone, unless the step counter is zero, in
  which case both images can be lost (`ImageCopy.RestartAfterFailedReadLosesBoth`). `ImageCopy.HandledCopyIsFaithfulExactly`
  says when a copy is faithful that was started again any number of times.
- `activeAccesses` is 8 bits wide: with 256 live tokens the card can change under them
  (`SdCardAccess.CardChangesUnder256Tokens`).
- The parser's constructor does not store `storeSplitPackets`; the flag stays false.
- The size check for the file name in `serializeRepositoryAndFilename` does not count the name's zero byte, so that a
  success can write one byte behind the limit (`FileCommands.LimitIsExceeded`): exactly if path, zero byte and name
  fill it to the last byte (`FileCommands.LimitIsKeptExactly`). An empty name is always refused.
- `deSerializeRepositoryAndFilename` does not check that the zero bytes behind path and name are inside the stream. It
  returns success with a size left that has wrapped around (`FileCommands.SizeLeftWrapsAround`), which a write
  command then takes for the size of its data: exactly if the stream has fewer bytes than were taken from it
  (`FileCommands.SizeLeftExactly`).
- A path or a name that is too long is only reported. The path is cut, and the rest of it taken for the name
  (`FileCommands.LongPathIsCut`); a command with such a name is a success without a name (`FileCommands.ParseOfAnySize`).
- The preferred card is 1 or 2 in the FRAM, 0 and 0xff meaning none (`bsp_sam9g20/common/fram/CommonFRAM.h:52-54`), and that is
  how the boot code reads it; the card access manager takes 0 and 1 for cards 0 and 1, and looks at the last byte
  only (`bsp_sam9g20/memory/SDCAccessManager.cpp:31-35`). They choose the same card exactly for 0, 0xff, and numbers
  other than 1 whose last byte is 1, such as 0x101 (`PreferredCard.SameCardExactly`); not for 1 or 2.
- Processed time falls behind the hardware time for good as soon as the scheduler is not called for a whole turn of
  the tick count, also before its first call (`CoRoutineGuarantees.MissedTurn`).

## Model

| member | source | states |
|---|---|---|
| ListViews.InsertIsSortedAndStable | freertos/src/list.c:127-168 | Sorted insertion keeps a list sorted, puts the new entry behind all with an equal or smaller value and before all with a greater one, and leaves the index on the entry it stood on |
| ListViews.InsertAtMembers | freertos/src/list.c:170-179 | Insertion at any place adds exactly the new owner |
| ListViews.RemoveMembers | freertos/src/list.c:183-209 | Removal takes away exactly the owner removed |
| RoundRobin.PicksFollowRotation | freertos/include/freertos/list.h:279-290 | Successive selections return the entries in circular order from the index on, never the end marker |
| RoundRobin.RoundPicksEachOnce | freertos/src/croutine.c:307-309 | With n entries and no change, n selections return each entry exactly once |
| RoundRobin.RemovalKeepsOrder | freertos/src/list.c:189-205 | Removing any entry leaves the order in which all others will be selected |
| RoundRobin.RemovalOfCurrentSkipsNobody | freertos/src/list.c:195-199 | Removing the entry just selected neither skips nor repeats anybody |
| RoundRobin.AdditionComesLast | freertos/src/list.c:96-111 | Where exactly an entry added at the end comes in the next round |
| RoundRobin.NewEntryWaitsForAllExactlyAtMarker | freertos/include/freertos/list.h:381-384 | Everybody else is selected before a new entry if and only if the index stands on the end marker |
| RoundRobin.BoundedWaiting | freertos/src/croutine.c:307-309 | Whatever is added and removed around it, an entry that stays in a list of at most n is selected within 2n - 1 selections |
| RoundRobin.BoundIsTight | freertos/src/list.c:96-111 | For every number of entries, a run of additions and removals in which an entry waits that long |
| KernelList.List.constructor | freertos/src/list.c:48-70 | A new list is a circle of its end marker, with no items and the index on the marker |
| KernelList.List.InsertEnd | freertos/src/list.c:85-112 | The pointer code keeps the circle, count, back pointers and index, and inserts before the index as the list value says |
| KernelList.List.Search | freertos/src/list.c:163-167 | The search loop ends, at the marker at the latest, at the last node with a value not above the new one |
| KernelList.List.Insert | freertos/src/list.c:115-180 | Sorted, stable insertion, including a value equal to that of the marker, keeps the structure |
| KernelList.List.Remove | freertos/src/list.c:183-209 | Removal through the container pointer keeps the structure, moves the index back if it stood on the item, and returns the number left |
| KernelList.List.OwnerOfNextEntry | freertos/include/freertos/list.h:279-290 | Moves the index to the next entry, past the marker, and returns that entry's owner |
| ListFamily.InsertInto | freertos/src/list.c:115-180 | Insertion into one of many lists over shared memory leaves all the others valid and as they were |
| ListFamily.RemoveFrom | freertos/src/list.c:183-209 | So does removal |
| CoRoutinePlaces.StepKeepsPlaces | freertos/src/croutine.c:161-274 | Every action keeps each generic item in exactly one of its own ready list and the two delay lists, and each event item in at most one event or pending list and only while the generic item is delayed |
| CoRoutineTiming.StepKeepsClock | freertos/src/croutine.c:227-278 | Every action keeps the tick counters equal to processed and hardware time modulo the width of a tick |
| CoRoutineTiming.TicksPassed | freertos/src/croutine.c:227 | The modular difference of the tick counts is the number of ticks to work off, whatever the wraps |
| CoRoutineTiming.EmptyAtSwap | freertos/src/croutine.c:235-246 | The current delay list is empty whenever the lists are swapped |
| CoRoutineTiming.StepKeepsTiming | freertos/src/croutine.c:161-274 | Every action keeps each delayed item's value equal to its true wake time, in the current list before the next wrap and in the overflow list after it |
| CoRoutineTiming.OnlyZeroDelayBreaksTiming | freertos/src/croutine.c:169-189 | A delay of any number of ticks below the modulus keeps the timing if and only if it is not zero |
| CoRoutineTiming.ZeroDelayAtLastTickIsLost | freertos/src/croutine.c:237-246 | A zero delay at the last tick, followed by the return of the co-routine and the next tick, leaves its item on the overflow list |
| CoRoutineOrder.StepKeepsDelayOrder | freertos/src/croutine.c:177-189 | Delay lists stay in wake-time order, first come first served among equals |
| CoRoutineOrder.StepKeepsEventOrder | freertos/src/croutine.c:143-144 | Event lists stay in priority order, longest waiting first among equals |
| CoRoutineOrder.StepKeepsSignals | freertos/src/croutine.c:345-347 | The pending list, and what was readied from it, stay in the order of the events |
| CoRoutineOrder.StepAccounts | freertos/src/croutine.c:207-274 | No event is lost or counted twice: each has readied its co-routine, is on its way, or came before a time-out that the co-routine had first |
| CoRoutineOrder.StepKeepsTimeouts | freertos/src/croutine.c:249-273 | Time-outs happen in the order of true wake times, first come first served among equals |
| CoRoutineGuarantees.StartKeepsAll | freertos/src/croutine.c:317-334 | All invariants hold before the first co-routine is created, whatever the hardware time |
| CoRoutineGuarantees.StepKeepsAll | freertos/src/croutine.c:101-359 | Every action of the scheduler, the co-routines and the interrupts keeps all invariants |
| CoRoutineGuarantees.RunKeepsAll | freertos/src/croutine.c:101-359 | So does every run, under every interleaving |
| CoRoutineGuarantees.EveryRun | freertos/src/croutine.c:101-359 | In every run from the start nobody is lost or in two places, time-outs come in true wake-time order, and unblocked co-routines become ready in the order of their events, all of them but those overtaken by a time-out |
| CoRoutineGuarantees.SelectionIsHighest | freertos/src/croutine.c:293-309 | The downward search misses nobody: what runs is ready and of the highest priority that has a ready one, and nothing runs only if nobody is ready |
| CoRoutineGuarantees.InterruptsLeaveTheSearch | freertos/src/croutine.c:293-302 | No interrupt during the search changes what it finds |
| CoRoutineGuarantees.EventUnblocksHighest | freertos/src/croutine.c:345-347 | An event unblocks the waiter of the highest priority, the longest waiting among equals, and puts it last on the pending list |
| CoRoutineGuarantees.NobodyOverdue | freertos/src/croutine.c:249-258 | No delayed co-routine is past its wake time, except within the tick at which it is due |
| CoRoutineGuarantees.TimeOutIsExact | freertos/src/croutine.c:251-266 | A time-out fires when processed time is the wake time |
| CoRoutineGuarantees.DelayedUntil | freertos/src/croutine.c:191-274 | A delayed co-routine stays delayed, with its wake time, under every action but its time-out or an event that readies it |
| CoRoutineGuarantees.DelaySetsWakeTime | freertos/src/croutine.c:161-190 | A delay of d ticks at processed time T is due at T + d |
| CoRoutineGuarantees.DelayLastsExactly | freertos/src/croutine.c:161-279 | Along every run a delayed co-routine leaves the delay lists exactly at its wake time, or earlier by an event, across any number of wraps and missed ticks |
| CoRoutineGuarantees.ProcessedTimeIsTrueTime | freertos/src/croutine.c:227-278 | Outside the tick loop processed time is the hardware time read last, up to full turns of the count, and it is the hardware time itself if and only if no turn was missed |
| CoRoutineGuarantees.NobodyOversleeps | freertos/src/croutine.c:223-279 | Outside the tick loop, if no turn was missed, everybody who is delayed wakes up after the hardware time read last |
| CoRoutineGuarantees.TimeGoesOn | freertos/src/croutine.c:223-227 | Along every run neither hardware time nor the time read last goes back |
| CoRoutineGuarantees.MissedTurn | freertos/src/croutine.c:223-228 | A run in which the first read of the tick count comes a full turn late, and processed time stays behind |
| CoRoutineGuarantees.ReadyListStep | freertos/src/croutine.c:66-73 | Ready lists see nothing but selections, additions at the end and removals |
| CoRoutineGuarantees.NoStarvation | freertos/src/croutine.c:304-309 | With n co-routines in all, one that stays ready is selected within 2n - 1 selections at its priority, whatever else happens |
| CoRoutineEvents.PendingGetsReady | freertos/src/croutine.c:205-219 | Along every run, what is on the pending list while the loop that empties it is going on is ready as soon as the loop is over, and stays so until it delays itself |
| CoRoutineEvents.EventsAreServed | freertos/src/croutine.c:205-219 | Along every run, every event that came before or during the loop up to some point has, as soon as the loop is over, made its co-routine ready, or came before a time-out |
| CoRoutineEvents.PendingIsServed | freertos/src/croutine.c:205-219 | Both, for a stretch of a run from within the loop to a point behind it |
| CoRoutineEvents.CreatedIsReady | freertos/src/croutine.c:101-158 | A new co-routine is ready, with its priority or the greatest there is; only the first one becomes the current one; nobody else moves |
| CoRoutineEvents.DelayedWaits | freertos/src/croutine.c:161-197 | A delay takes its co-routine, and nobody else, from its ready list to a delay list and to exactly the event list asked for |
| CoRoutineMemory.Memory.EmptyMemoryMatches | freertos/src/croutine.c:317-334 | Freshly initialised lists stand for the start of the state machine |
| CoRoutineMemory.Memory.ToReadyList | freertos/src/croutine.c:66-73 | Linking a free generic item into its ready list changes the lists as the state machine says |
| CoRoutineMemory.Memory.TakeGenericItem | freertos/src/croutine.c:174-175 | Unlinking a generic item from whatever list its container names does |
| CoRoutineMemory.Memory.TakeEventItem | freertos/src/croutine.c:268-272 | So does unlinking an event item, if it is on a list at all |
| CoRoutineMemory.Memory.ReadyToDelayedAndWaiting | freertos/src/croutine.c:171-196 | The lists after a delay, with or without an event list |
| CoRoutineMemory.Memory.EventToPendingList | freertos/src/croutine.c:345-347 | The lists after an event |
| CoRoutineMemory.Memory.NewReadyBlock | freertos/src/croutine.c:125-148 | The lists after a creation: a new block with free items, linked into its ready list |
| CoRoutineMemory.Memory.SwapDelayLists | freertos/src/croutine.c:237-246 | Swapping the two list pointers swaps what they stand for |
| CoRoutineMemory.Memory.NextReady | freertos/src/croutine.c:309 | The selection from a ready list in memory is that from its value |
| CoRoutineScheduler.Scheduler.constructor | freertos/src/croutine.c:317-334 | The memory before the first creation is the start of a run |
| CoRoutineScheduler.Scheduler.CreateCoRoutine | freertos/src/croutine.c:101-158 | Creation takes the action Create, with the priority clamped |
| CoRoutineScheduler.Scheduler.PendingIsEmpty | freertos/src/croutine.c:205 | The loop test finds the list empty if and only if it is |
| CoRoutineScheduler.Scheduler.MoveToDelayList | freertos/src/croutine.c:161-197 | The moves of such a delay between the lists in memory |
| CoRoutineScheduler.Scheduler.AddToDelayedList | freertos/src/croutine.c:161-197 | A delay of any number of ticks changes the lists as the delay on values says; one of at least one tick takes the action Delay |
| CoRoutineScheduler.Scheduler.PopHead | freertos/src/croutine.c:209-214 | The critical section takes the head of the pending list off |
| CoRoutineScheduler.Scheduler.MoveToReady | freertos/src/croutine.c:216-217 | The unblocked co-routine goes from its delay list to its ready list, and fewer are delayed |
| CoRoutineScheduler.Scheduler.CheckPendingReadyList | freertos/src/croutine.c:200-219 | With interrupts anywhere, the loop ends, by a run of the state machine; the pending list is empty then, everybody who was on it is ready, and every event so far has been served |
| CoRoutineScheduler.Scheduler.OneTick | freertos/src/croutine.c:229-246 | One round of the outer loop takes the action Tick, with the swap at zero |
| CoRoutineScheduler.Scheduler.HeadTimedOut | freertos/src/croutine.c:249-257 | The inner loop test finds the head timed out if its value is not above the tick count |
| CoRoutineScheduler.Scheduler.TakeTimedOut | freertos/src/croutine.c:259-272 | The critical section takes both items off, also if an event came just before it |
| CoRoutineScheduler.Scheduler.CheckDelayedList | freertos/src/croutine.c:223-279 | With interrupts anywhere, all ticks that have passed are worked off, by a run of the state machine, and if no turn was missed nobody is left asleep whose time had come when the function was called |
| CoRoutineScheduler.Scheduler.SearchReady | freertos/src/croutine.c:293-309 | With interrupts anywhere, the search ends, and finds a ready co-routine of the highest priority unless nobody is ready |
| CoRoutineScheduler.Scheduler.Schedule | freertos/src/croutine.c:282-314 | So does the whole function: it ends, by a run of the state machine, in the co-routine to be run; everybody who was on the pending list is ready, every event before the call has been served, and nobody is left asleep whose time had come, if no turn was missed |
| CoRoutineScheduler.Scheduler.CoRoutineReturns | freertos/src/croutine.c:312-314 | The return of the co-routine function takes the action Return |
| CoRoutineScheduler.Scheduler.RemoveFromEventList | freertos/src/croutine.c:337-359 | An event takes the action Unblock, puts the longest waiting one of the highest priority on the pending list, and reports whether its priority is at least that of the current one |
| CoRoutineScheduler.Scheduler.Interrupts | freertos/src/croutine.c:337-359 | All interrupts due at an enabled point happen, one after the other, and leave the ready lists, the delay lists and the scheduler's counters as they are |
| Crc.TableEntry | bootloader/utility/CRC.c:4-37 | Each of the 256 entries is its index times x^16, reduced: eight division steps from the index as high byte |
| Crc.StepFeeds | bootloader/utility/CRC.c:47-48 | An iteration of the loop is eight steps of the division with the bits of the byte |
| Crc.FeedingDivides | bootloader/utility/CRC.c:41-53 | Feeding bits to the 16-bit register is schoolbook long division of polynomials by x^16 + x^12 + x^5 + 1 |
| Crc.ChecksumIsRemainder | bootloader/utility/CRC.c:41-53 | For every message and start value the table-driven checksum is the remainder of that division |
| Crc.Crc16Ccitt | bootloader/utility/CRC.c:41-53 | The loop computes this remainder |
| Crc.Crc16CcittDefaultStart | bootloader/utility/CRC.c:56-59 | With start value 0xffff |
| Crc.ChecksumStreams | bootloader/utility/CRC.c:41-53 | The checksum of a then b is that of b started from that of a |
| Crc.ResidueIsZeroExactly | bootloader/utility/CRC.c:41-53 | Running over a message and two more bytes gives zero if and only if these are its checksum, high byte first |
| Crc.BurstsAreDetected | bootloader/utility/CRC.c:46-52 | Messages of equal length that differ only within 16 consecutive bits have different checksums |
| Crc.TwoBytesAreDetected | bootloader/utility/CRC.c:46-52 | So have messages that differ only inside two consecutive bytes |
| ImageCopy.CallKeeps | bsp_sam9g20/core/ImageCopyingEngine.cpp:273-335 | After every call to be continued, what was read is in the target or counted as lost, and if nothing is lost the target is the part of the source read so far |
| ImageCopy.CallProgress | bsp_sam9g20/core/ImageCopyingEngine.cpp:250-271 | Every call to be continued leaves fewer bytes to read, or as many and fewer failed reads to go, and there have been at most two of them |
| ImageCopy.NothingLostExactly | bsp_sam9g20/core/ImageCopyingEngine.cpp:273-335 | Nothing is lost if and only if all writes were full and no call started with the step counter wrapped to zero |
| ImageCopy.FinishedCopyIsFaithfulExactly | bsp_sam9g20/core/ImageCopyingEngine.cpp:306-333 | For any short reads, failed reads and deadlines: a finished copy equals the source, and an unfinished one its beginning, exactly under that condition |
| ImageCopy.CopyOfFewChunksIsFaithful | bsp_sam9g20/core/ImageCopyingEngine.cpp:306-333 | With full writes, a finished copy of at most 65536 chunks equals the source, and an unfinished one of fewer its beginning |
| ImageCopy.CopyOfSmallImageIsFaithful | bsp_sam9g20/core/ImageCopyingEngine.cpp:306-333 | So, with full writes, every copy of an image of at most 65536 bytes is faithful, finished or not, for every buffer and all calls |
| ImageCopy.ChunkMoves | bsp_sam9g20/core/ImageCopyingEngine.cpp:306-328 | A chunk moves as much as is left, up to a buffer, or less if the card transfers less; when it finishes, goes on, or stops |
| ImageCopy.CallStops | bsp_sam9g20/core/ImageCopyingEngine.cpp:306-330 | Nothing is transferred in a call after a deadline or a failed read |
| ImageCopy.CallWithoutFiles | bsp_sam9g20/core/ImageCopyingEngine.cpp:281-304 | What a call does that cannot open its files |
| ImageCopy.ChunksOfFullReads | bsp_sam9g20/core/ImageCopyingEngine.cpp:306-333 | If no read comes up short, a finished copy has taken as many chunks as there are buffers in the image, rounded up, and an unfinished one has read its chunks in full |
| ImageCopy.CopyOfFewBuffersIsFaithful | bsp_sam9g20/core/ImageCopyingEngine.cpp:306-333 | So an image of at most 65536 buffers is copied faithfully, whatever the deadlines and the failed reads |
| ImageCopy.FullCallsFinish | bsp_sam9g20/core/ImageCopyingEngine.cpp:306-333 | Calls with full transfers until their deadlines finish a copy, if there are as many as buffers in the image |
| ImageCopy.CopyEnds | bsp_sam9g20/core/ImageCopyingEngine.cpp:250-335 | No copy asks to be continued more often than there are bytes, and once more (twice for an empty image) |
| ImageCopy.FailsOnlyAtThirdError | bsp_sam9g20/core/ImageCopyingEngine.cpp:253-268 | If the files open, a copy fails only at its third failed read; an empty image is never finished |
| ImageCopy.WrappedCounterLosesTheBeginning | bsp_sam9g20/core/ImageCopyingEngine.cpp:294-297 | For every buffer size, calls for which an image of more than 65536 chunks finishes without its beginning |
| ImageCopy.WrappedCounterLosesAll | bsp_sam9g20/core/ImageCopyingEngine.cpp:294-297 | Calls for which an unfinished copy of exactly 65536 chunks has an empty target |
| ImageCopy.RestartMidCopyNeverFinishes | bsp_sam9g20/core/SoftwareImageHandler.cpp:372-397 | A copy started again with the other slot after a call has opened the files never finishes, and what becomes of the good image |
| ImageCopy.RestartedCopyIsFaithfulExactly | bsp_sam9g20/core/SoftwareImageHandler.cpp:372-397 | A copy that was started again and finishes is faithful exactly under the condition above, and was started again with the same slot or before any call had opened the files |
| ImageCopy.RestartBeforeCopyCanFinish | bsp_sam9g20/core/SoftwareImageHandler.cpp:372-397 | In the latter case it can finish |
| ImageCopy.RestartAfterFailedReadLosesBoth | bsp_sam9g20/core/SoftwareImageHandler.cpp:372-397 | A run of a failed read and such a restart after which both images are gone |
| ImageCopy.HandledCopyIsFaithfulExactly | bsp_sam9g20/core/SoftwareImageHandler.cpp:62-96 | For calls and starts in any order: a copy that finishes has the source it had at the first call, and is faithful if and only if all writes were full and no call started with the step counter wrapped to zero |
| ImageCopy.BegunCopy | bsp_sam9g20/core/SoftwareImageHandler.cpp:372-397 | The same from any point of such a run on, also one at which the copy is turned round |
| ImageCopy.DetourCostsARead | bsp_sam9g20/core/SoftwareImageHandler.cpp:372-397 | Turning a copy round, one call, and turning it back costs one failed read and nothing else, unless the step counter is zero |
| ImageCopy.ImageCopyingEngine.StartSdcToSdcOperation | bsp_sam9g20/core/ImageCopyingEngine.cpp:35-46 | The target is the other slot; a copy starts afresh if the engine was reset, and otherwise goes on with nothing but the slots changed |
| ImageCopy.ImageCopyingEngine.Reset | bsp_sam9g20/core/ImageCopyingEngine.cpp:73-87 | All counters are zero again; the state finished last is kept |
| ImageCopy.ImageCopyingEngine.PrepareGenericFileInformation | bsp_sam9g20/core/ImageCopyingEngine.cpp:134-247 | The size is cached by the first call only, and which failure gives which result |
| ImageCopy.ImageCopyingEngine.OpenFiles | bsp_sam9g20/core/ImageCopyingEngine.cpp:281-304 | The first call deletes the target, every call opens it for appending, and no other file changes |
| ImageCopy.ImageCopyingEngine.ReadFile | bsp_sam9g20/core/ImageCopyingEngine.cpp:250-271 | The buffer holds the part of the file read, or the error is counted and the third gives a failure |
| ImageCopy.ImageCopyingEngine.CopyChunk | bsp_sam9g20/core/ImageCopyingEngine.cpp:307-322 | One round of the loop takes the step of the copy on values, of which ChunkMoves says how much it moves |
| ImageCopy.ImageCopyingEngine.CopySdcImgToSdc | bsp_sam9g20/core/ImageCopyingEngine.cpp:273-335 | A call does what the copy on values does, resets if it finishes, and touches no other file |
| ImageCopy.ImageCopyingEngine.CopyImage | bsp_sam9g20/core/SoftwareImageHandler.cpp:64-101 | Calls until one does not ask to be continued: the other slot holds the source exactly under the condition above |
| SdCardAccess.LiveAfterStep | bsp_sam9g20/memory/SDCardAccess.cpp:12-61 | Which steps change the number of live tokens, and how |
| SdCardAccess.StepKeepsAll | bsp_sam9g20/memory/SDCardAccess.cpp:12-61 | Every step keeps the counter equal to the number of live tokens modulo 256, and with at most 255 the file system open exactly while one is live, and all live tokens on the active card |
| SdCardAccess.OpensAndClosesExactly | bsp_sam9g20/memory/SDCardAccess.cpp:26-60 | The file system is opened exactly by a step that grants a token while a multiple of 256 are live, and closed exactly by one that gives a token back and leaves such a number; with at most 255, on the first and on the last |
| SdCardAccess.CardChangesExactly | bsp_sam9g20/memory/SDCAccessManager.cpp:59-80 | The active card changes exactly by an attempt while no token, or a multiple of 256 of them, is live |
| SdCardAccess.GrantedExactly | bsp_sam9g20/memory/SDCardAccess.cpp:17-42 | After every run, the next token is granted if and only if the last attempt to change the card was not refused, and is then for the active card; and its result |
| SdCardAccess.ChangingSinceRefusal | bsp_sam9g20/memory/SDCAccessManager.cpp:59-80 | A change is going on exactly from a refused attempt to one that is not |
| SdCardAccess.EveryInterleaving | bsp_sam9g20/memory/SDCardAccess.cpp:12-61 | All this holds for every interleaving of creations, destructions and attempts |
| SdCardAccess.NoneGrantedDuringChange | bsp_sam9g20/memory/SDCAccessManager.cpp:64-79 | After a refused attempt no token is granted until one succeeds: the number of live tokens only goes down, by those given back |
| SdCardAccess.ChangeSucceedsOnceAllDropped | bsp_sam9g20/memory/SDCAccessManager.cpp:64-79 | The next attempt succeeds if and only if all tokens live at the refusal were given back |
| SdCardAccess.CardChangesUnder256Tokens | bsp_sam9g20/memory/SDCAccessManager.cpp:68-77 | With 256 live tokens an attempt changes the card |
| SdCardAccess.SDCardAccessManager.constructor | bsp_sam9g20/memory/SDCAccessManager.cpp:26-42 | The active card is the preferred one, card 0 if that is invalid |
| SdCardAccess.SDCardAccessManager.TryActiveSdCardChange | bsp_sam9g20/memory/SDCAccessManager.cpp:59-80 | The code takes the step TryChange and reports whether the card changed |
| SdCardAccess.SDCardAccessManager.GetSdCardChangeOngoing | bsp_sam9g20/memory/SDCAccessManager.cpp:49-56 | Whether a change is going on |
| SdCardAccess.SDCardAccess.constructor | bsp_sam9g20/memory/SDCardAccess.cpp:12-43 | The code takes the step Create; the token has the result and volume of that step |
| SdCardAccess.SDCardAccess.ReleaseFileSystem | bsp_sam9g20/memory/SDCardAccess.cpp:45-54 | A granted token leaves the file system; a denied one does nothing |
| SdCardAccess.SDCardAccess.GiveBack | bsp_sam9g20/memory/SDCardAccess.cpp:55-61 | The code takes the step Drop and closes the file system exactly if no token is live any more |
| BootSelection.DetermineBootSelect | bootloader/archive/boot_iobc_freertos.c:150-255 | The branches choose the first image with a counter of at most 3 in the order update slot, flash, preferred card, other card, and otherwise flash without error correction; an unreadable FRAM gives the latter, too |
| BootSelection.DecisionInFields | bootloader/archive/boot_iobc_freertos.c:150-255 | In terms of the fields of the FRAM: in exactly which cases each of the five images is booted, and with error correction |
| BootSelection.BootInFields | bootloader/archive/boot_iobc_freertos.c:310-324 | The field of the image chosen is counted up, and no other one |
| BootSelection.UpdateIsTriedFourTimes | bootloader/archive/boot_iobc_freertos.c:173-182 | A new update is booted four times, and then no more |
| BootSelection.Fram.IncrementImgRebootCounter | bsp_sam9g20/common/fram/FRAMApi.c:521-540 | The counter of this image goes up by one, in 16 bits, if the FRAM can be written |
| BootSelection.Fram.Boot | bootloader/archive/boot_iobc_freertos.c:89-147 | Every attempt to boot counts once, for the image chosen, whether it restarts or jumps |
| BootSelection.BootTakesOneTry | bootloader/archive/boot_iobc_freertos.c:65-80 | The image chosen has tries left, and booting it takes exactly one from the total |
| BootSelection.BootsBeforeFallback | bootloader/archive/boot_iobc_freertos.c:65-80 | Exactly the sum of max(0, 4 - counter) over the images of the order boots come before the fallback |
| BootSelection.BootWithFaults | bootloader/archive/boot_iobc_freertos.c:89-147 | A boot takes no try if the FRAM cannot be written, one if it can be read and written and there is one, and one of the flash image's if it cannot be read |
| BootSelection.TriesAreConserved | bootloader/archive/boot_iobc_freertos.c:65-147 | Along every run with any faults of the FRAM in which the flash counter does not wrap, the tries taken and those left are those there were, so that never more boots that count come before the fallback |
| PreferredCard.SameCardExactly | bsp_sam9g20/memory/SDCAccessManager.cpp:26-42 | The bootloader and the card access manager choose the same card exactly for the values 0 and 0xff, and for those other than 1 whose last byte is 1, such as 0x101 |
| PreferredCard.SameVolumeWithWideIdsExactly | bsp_sam9g20/memory/SDCAccessManager.cpp:30-35 | With a wider type of volumes they do so exactly for 0 and 0xff, and 0x101 passes the test without being a card |
| PreferredCard.BootCardIsBooted | bootloader/archive/boot_iobc_freertos.c:198-225 | The card meant here is the one that is booted if its image has tries left and neither the update, where there is one, nor the flash image has |
| BootSelection.FallbackPersists | bootloader/archive/boot_iobc_freertos.c:105-124 | From then on every boot falls back, as long as the flash counter does not wrap |
| BootSelection.FallbackEndsAtWrap | bsp_sam9g20/common/fram/FRAMApi.c:527 | At the wrap the flash image is chosen as usable again |
| BootSelection.TriedInOrder | bootloader/archive/boot_iobc_freertos.c:71-75 | A boot never goes back to an image before that of the boot before it |
| PusParser.ChainIsExact | bsp_sam9g20/tmtcbridge/PusParser.cpp:67-141 | The pairs found are contiguous from 0, inside the frame, of 7 bytes more than the number in their fifth and sixth bytes, the most significant first, and all there are unless space runs out |
| PusParser.PairsAreDisjoint | bsp_sam9g20/tmtcbridge/PusParser.cpp:67-141 | Two packets found never overlap |
| PusParser.ChainFindsThePackets | bsp_sam9g20/tmtcbridge/PusParser.cpp:67-141 | In a concatenation of packets with nonzero length fields that fits the FIFO exactly these packets are found |
| PusParser.BoundariesCutOutThePackets | bsp_sam9g20/tmtcbridge/PusParser.h:41-43 | What the recorded pairs cut out of the frame are the packets |
| PusParser.ScanFindsTheChain | bsp_sam9g20/tmtcbridge/PusParser.cpp:88-141 | The code finds the packets, whatever the byte behind the frame that it may read |
| PusParser.ScanResults | bsp_sam9g20/tmtcbridge/PusParser.cpp:90-140 | Which end of the chain gives which return value |
| PusParser.PacketsAreFound | bsp_sam9g20/tmtcbridge/PusParser.cpp:8-65 | Parsing a frame of nothing but packets records exactly them and succeeds |
| PusParser.ParseInBytes | bsp_sam9g20/tmtcbridge/PusParser.cpp:8-141 | For a frame of encoded packets with anything behind them: exactly these packets are cut out of the frame, and the return value in terms of the bytes behind them |
| PusParser.StoringAddsTheSplitPacket | bsp_sam9g20/tmtcbridge/PusParser.cpp:102-120 | Storing split packets would add exactly what is left of the frame, if there is space |
| PusParser.PusParser.constructor | bsp_sam9g20/tmtcbridge/PusParser.cpp:4-6 | The FIFO is empty and split packets are not stored, whatever the argument |
| PusParser.PusParser.GetNextFifoPair | bsp_sam9g20/tmtcbridge/PusParser.cpp:82-86 | Pairs come out in the order in which they went in; an empty FIFO gives an empty pair |
| PusParser.PusParser.ParsePusPackets | bsp_sam9g20/tmtcbridge/PusParser.cpp:8-65 | The FIFO grows by the packets found, within its capacity, and the return value is that of the scan |
| PusParser.PusParser.ReadMultiplePackets | bsp_sam9g20/tmtcbridge/PusParser.cpp:67-76 | The loop ends, with everything found from the start index on |
| PusParser.PusParser.ReadNextPacket | bsp_sam9g20/tmtcbridge/PusParser.cpp:88-141 | One packet is recorded and the index moves behind it, or the scan is over |
| FileCommands.ParseSerialized | bsp_sam9g20/memory/SDCardHandlerPackets.h:548-605 | Parsing a serialized path and name, followed by anything, gives the path, the name, and exactly what follows |
| FileCommands.ParseOfAnySize | bsp_sam9g20/memory/SDCardHandlerPackets.h:548-605 | For a path and a name in memory and a stream of any size that starts with them: what is returned, assigned and left, also if the stream ends inside either or the name is too long |
| FileCommands.LongPathIsCut | bsp_sam9g20/memory/SDCardHandlerPackets.h:558-575 | A path that is too long is cut, and the rest of it, but for a byte, becomes the name |
| FileCommands.SizeLeftExactly | bsp_sam9g20/memory/SDCardHandlerPackets.h:577-603 | After every success the size left is the size less what was taken, in 32 bits, and right if and only if the stream holds what was taken |
| FileCommands.SizeLeftWrapsAround | bsp_sam9g20/memory/SDCardHandlerPackets.h:577-603 | A stream of one byte is parsed with success, with 2^32 - 2 bytes left |
| FileCommands.ParseSerializedTwice | bsp_sam9g20/memory/SDCardHandlerPackets.h:134-142 | The same for a source and a target |
| FileCommands.DeSerializeRepositoryAndFilename | bsp_sam9g20/memory/SDCardHandlerPackets.h:548-605 | The code assigns the path and name, and moves the pointer and the size, as the parse function says, also where it fails or gives up |
| FileCommands.SerializeRepositoryAndFilename | bsp_sam9g20/memory/SDCardHandlerPackets.h:671-705 | When exactly the names fit, and what is in the buffer then and otherwise; the buffer needs no more room than the limit leaves, unless the limit is exceeded |
| FileCommands.LimitIsKeptExactly | bsp_sam9g20/memory/SDCardHandlerPackets.h:692-699 | What is written stays within the limit if and only if the names do not fill it to the last byte, and is otherwise one byte too long |
| FileCommands.LimitIsExceeded | bsp_sam9g20/memory/SDCardHandlerPackets.h:692-699 | Two names of one letter take four bytes, and are written with a limit of three |
| FileCommands.LimitIsKeptTwiceExactly | bsp_sam9g20/memory/SDCardHandlerPackets.h:148-162 | The same for a source and a target; a source that exceeds the limit is written before the target is refused |
| FileCommands.LimitIsKeptWithDataExactly | bsp_sam9g20/memory/SDCardHandlerPackets.h:282-311 | The same for names and data; names that exceed the limit are written before the data are refused |
| FileCommands.NamesInBytes | bsp_sam9g20/memory/SDCardHandlerPackets.h:678-704 | When path and name are written in full, and what is written otherwise, in bytes |
| FileCommands.DataInBytes | bsp_sam9g20/memory/SDCardHandlerPackets.h:282-311 | Names and data are written in full if and only if the name is not empty and all is within the limit |
| FileCommands.BothInBytes | bsp_sam9g20/memory/SDCardHandlerPackets.h:148-162 | A source and a target are if and only if all but the last zero byte is |
| FileCommands.GenericSourceTargetCommand.Serialize | bsp_sam9g20/memory/SDCardHandlerPackets.h:148-162 | Succeeds exactly if no part is empty and all fit, and what is written then and otherwise |
| FileCommands.GenericSourceTargetCommand.DeSerialize | bsp_sam9g20/memory/SDCardHandlerPackets.h:134-142 | Parses the target only if the source was parsed |
| FileCommands.WriteCommand.Serialize | bsp_sam9g20/memory/SDCardHandlerPackets.h:282-311 | Succeeds exactly if names and data fit, and what is written then and otherwise |
| FileCommands.WriteCommand.DeSerialize | bsp_sam9g20/memory/SDCardHandlerPackets.h:254-276 | The data of a new file is what is left behind the names |
| FileCommands.SentWriteIsReceived | bsp_sam9g20/memory/SDCardHandlerPackets.h:254-311 | A write command that was sent is received with its path, its name and exactly its data |
| FileCommands.SentSourceAndTargetAreReceived | bsp_sam9g20/memory/SDCardHandlerPackets.h:134-162 | A command with source and target is received with all four names and nothing left over |
| Timestamp.NextDayIsOneMore | bsp_sam9g20/utility/compile_time.h:59-92 | The next day of the Gregorian calendar has the next day number, at every end of a month, year, century and 400 years |
| Timestamp.NextSecondIsOneMore | bsp_sam9g20/utility/compile_time.h:82-92 | The next second has the next time stamp |
| Timestamp.StampCounts | bsp_sam9g20/utility/compile_time.h:82-92 | The time stamp of the time counted n seconds from the epoch is n |
| Timestamp.EveryTimeIsCounted | bsp_sam9g20/utility/compile_time.h:82-92 | Every valid time from 1970 on is the one counted as many seconds as its time stamp |
| Timestamp.StampIsInjective | bsp_sam9g20/utility/compile_time.h:82-92 | Different times have different time stamps |
| Timestamp.LastTimeIn32Bits | bsp_sam9g20/utility/compile_time.h:25-28 | The time with the greatest 32-bit time stamp |
| Counter64.UpdateIsExactIff | bsp_sam9g20/core/CoreController.cpp:532-549 | An update brings the count up to date if and only if it comes less than 2^32 ticks after the one before |
| Counter64.BetweenUpdates | bsp_sam9g20/core/CoreController.cpp:512-520 | Between updates the total is exact until the counter wraps and then exactly 2^32 low |
| Counter64.HalvesShowTheReading | bsp_sam9g20/boardconfig/portwrapper.cpp:32-35 | The two 16-bit halves show the true count modulo 2^32 |
| Counter64.CoreController.GetTotalRunTimeCounter | bsp_sam9g20/core/CoreController.cpp:512-520 | The total for any true count less than 2^32 ticks after the last update |
| Counter64.CoreController.Update64bit10kHzCounter | bsp_sam9g20/core/CoreController.cpp:532-549 | Both counters are updated |
| Counter64.CoreController.PerformPeriodicTimeHandling | bsp_sam9g20/core/CoreController.cpp:394-397 | With calls at any times not more than 343000 seconds apart, an update happens exactly when 24 hours have passed, and every update makes both totals exact |

## Left out

- Lists are made with the memory instead of at the first creation, and there is a fixed number of event lists.
- CoRoutineScheduler.Scheduler.AddToDelayedList: what follows a delay of no ticks, which is no action of the state machine, is in `CoRoutineTiming` only.
- Allocation failure in `xCoRoutineCreate`, `uxIndex`, the co-routine function and its own state.
- Owner pointers are numbers of control blocks; list integrity check bytes and coverage markers.
- Both configurations set `configUSE_CO_ROUTINES` to 0, so that `croutine.c` is compiled out there.
- The queue functions for co-routines, crDELAY and the other macros of `croutine.h`: only their calls are modelled.
- RoundRobin.AdditionComesLast: states where a new entry comes in the next round, which is not always last.
- Source slots other than the two image slots of the SD card, which `SoftwareImageHandler.cpp:382-390` does not pass to this copy, and Hamming code files; the printouts; that the source file is not closed.
- ImageCopy.ImageCopyingEngine.PrepareGenericFileInformation: only image files on the card; the bootloader, the flash image and Hamming code files are for the engine's other operations.
- ImageCopy.ImageCopyingEngine.StartSdcToSdcOperation: an engine that is in the middle of one of its other operations is not started for this one.
- Whether opening the file system succeeds has no effect on the model but for the token's result; a denied token's volume is unset in the code and arbitrary here.
- The transfer of images and their Hamming check in the bootloader are one result; `restart` does not return.
- Frames are values, and a byte behind them is a parameter; `DynamicFIFO` is a bounded queue.
- Write commands that append to a file, `deSerializeRepositories`, and the replies: the serialization of numbers is not part of this repository.
- FileCommands.SerializeRepositoryAndFilename: where the code writes one byte behind the limit, the buffer is taken to have that byte; what a write behind the buffer itself does is not modelled.
- FileCommands.DeSerializeRepositoryAndFilename: behind the buffer a zero byte follows, so that `strlen` ends; a null buffer is not modelled. Strings that are too long are cut to their capacity on assignment.
- `__DATE__` and `__TIME__` are not parsed; time stamps are not cut to 32 bits.
- A timer interrupt between the reads of the two halves of the 10 kHz counter; `getTotalIdleRunTimeCounter`, which is the same code.
- The message handling, events and other periodic work around all of these parts.
