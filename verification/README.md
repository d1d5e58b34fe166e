# Verification of the statm daemon

A model in Dafny 4.11 of five parts of the statistics daemon, and proofs about them.

- **The I/O multiplexer** (`Timespecs`, `Timers`, `Descriptors`, `Interests`, `InternalQueue`, `Multiplexer`,
  `MultiplexerProofs`, `MultiplexerRuns`, `QueueRuns`, `Callbacks`, `Dispatches`, `RunningContext`, `SignalPool`). One
  single-threaded loop drives timers, descriptor handlers with the kernel's epoll set, a framed byte queue in front of a
  packet pipe, and pooled signal messages. Each of the first three has a specification on values. `Multiplexer` puts
  them together into one round of the loop, in which a callback is an arbitrary list of public operations.
  `MultiplexerProofs` shows what every operation, callback and step keeps, `MultiplexerRuns` what therefore holds at
  every `epoll_wait` of every run, `QueueRuns` what becomes of the messages sent, `Callbacks` what a callback has done
  when it returns, and `Dispatches` whom a batch of ready descriptors reaches. The classes `StatmRunningContext` and
  `InternalQueue` carry the fields and loops of the program, each method proved equal to its specification.
- **The election of the controller** (`Election`): a transition system of any number of processes, one system call a
  step, with late initialisation of the semaphore, failing calls, crashes with `SEM_UNDO` and deaths of listeners.
- **The wire protocol** (`Xdr`, `OutputBuffer`, `FrameLoop`): the encoder and decoder that rpcgen makes from the message
  grammar (RFC 4506, sections 4.1 to 4.3, 4.5, 4.11 to 4.15 and 4.19), the growing output buffer, and the loop that
  takes a read apart into requests, up to both ends of a connection together.
- **The change tracker** (`LinkedLists`, `ChangeTracker`): lists of trackers by inotify watch, edited through a pointer
  to a pointer, and the walk through a buffer of packed events.
- **The statistical adapters** (`AdapterChains`, `RecordFile`): adapters chained by source directory, and the reading
  of record files.

`Bytes`, `Counting` and `Options` hold what these share. `dafny verify dfyconfig.toml` checks everything.

## Conventions

A C++ object that is deleted explicitly is a number in `Timers` and `Descriptors`, and the heap is a map from numbers to
objects: a second `delete` or a use after it would be visible, since every number is counted over list, set, deleted
and dropped. Histories (which callbacks ran, which messages were accepted and written) are part of the state, so that
statements about whole runs are statements about one state.

Two flags record that the world has left the ground on which a guarantee stands: `clash` (a handler was registered for a
descriptor which another live handler serves) and `spurious` (a client's `connect` failed although a live listener was
bound). The guarantees that need them say so, and for each flag there is a lemma on what happens without that ground. A
third, `odd`, records that a time was ever registered that cannot be in time. No guarantee on time asks for it: they ask
for the expiries at that moment, which all can be in time where `odd` is not set.

What the world decides is a parameter: clock readings, ready descriptors, whether `malloc` finds memory, how many
packets the pipe takes, what `send` returns, which system call fails, what a callback does.

Assumed of the world: `MQSend` and each callback are atomic; a message is at most PIPE_BUF long, so that a write to the
pipe takes all of it or nothing; `epoll_wait` reports `EPOLLOUT` only to a handler that wants it; callbacks use no timer
or handler that was deleted, and know nothing of the queue's two private handlers; signal callbacks remove no signal
handler (they may register some); one `read` of inotify events gives whole events.

## Where the code does not do what one would expect

- Registering a second handler for a descriptor before the first one is removed makes the removal's `EPOLL_CTL_DEL` take
  the second one's interest away; and the second one's `EPOLL_CTL_ADD` fails, so that the kernel goes on with
  the first one's flags. The exact condition is `Interests.ToldIff`, the histories are `Interests.ClashLosesInterest`
  and `Interests.ClashHidesFlags`. Removing first and registering then, in the same round, is no clash
  (`MultiplexerProofs.ClashIff`).
- A clock jump prepares all timers anew, and an inactive timer is then dropped, although it could have been switched on
  again without the jump (`Timers.JumpKeepsOnlyActive`, `Timers.RunningStays`). It is never deleted either
  (`Timers.DestroyDeletesOnce`).
- An empty message stops the internal queue for ever (`InternalQueues.EmptyMessageBlocks`).
- A message sent before `CreateInternalMQ` waits until the next one is accepted (`QueueRuns.CreateQueueAwakeIff`,
  `QueueRuns.WakesIff`, `QueueRuns.WokenIff`). Nothing else in a run depends on it.
- A timer registered with nanoseconds of -10^6 or less, or of 10^9 + 10^6 or more, fires too early or too late
  (`Timespecs.RegisteredInTime`).
- A sleep of 2^31 ms or more is a different sleep (`Timespecs.SleepIsExact`, `MultiplexerRuns.SleepExactIff`).
- A client attempt that fails although a listener is alive takes the path away from it (`Election.UsurpsIff`,
  `Election.SpuriousFailureUsurps`).
- If the process that makes the semaphore fails at the SETVAL, or crashes before it, the semaphore stays 0 and nobody
  ever gets past it (`Election.LostIff`, `Election.LostForEver`).
- A negative `STATM_SIGS_SIZE` gives the largest pool, not the smallest (`SignalPools.PoolSize`).
- The comment at statm-mpx/StatmRunningContext.cpp:928 promises signals with lower numbers first; the waiting list is
  last in, first out, and the model follows the code.
- A configuration row is skipped only if its number leads a chain; any other repeated row makes a second adapter
  (`AdapterChains.SkippedIff`, `AdapterChains.RowTakenTwice`).
- The output buffer's 32-bit arithmetic fails within 1024 bytes of 4 GiB (`OutputBuffers.CapacityHolds`).
- A size word of -4 in the controller's input takes the frame loop to the same place again, without end if what stands
  behind it decodes as a request that does not end the connection (`FrameLoops.StandsStill`); a smaller one takes it
  backwards. With none below -3 the loop ends (`FrameLoops.ForwardEnds`). `PostRequest` writes no such word for a request
  of less than 2 GiB.
- The last byte of a record's name is overwritten (`RecordFiles.FileBackIff`).

## Model

| member | source | states |
|---|---|---|
| `Timespecs.Align` | statm-mpx/StatmRunningContext.cpp:586-587 | Cutting a normal time to milliseconds leaves it normal, loses less than a millisecond, and changes nothing that is already cut. |
| `Timespecs.OrderIsTime` | statm-mpx/StatmRunningContext.h:579-582 | The order of the timer set agrees with real time for a key, against every clock value, if and only if the key's nanoseconds lie between 0 and 10^9. |
| `Timespecs.RegisteredInTime` | statm-mpx/StatmRunningContext.cpp:586-587 | A time is cut toward zero when it is registered, so its key is in time if and only if the registered nanoseconds lie strictly between -10^6 and 10^9 + 10^6. |
| `Timespecs.Jump` | statm-mpx/StatmRunningContext.cpp:439-445 | A clock difference becomes a direction and a normal, millisecond-aligned amount of exactly its size. |
| `Timespecs.Shift` | statm-mpx/StatmRunningContext.h:528-548 | Compensation moves an expiry by exactly the jump in the jump's direction, with the carry in both directions, and keeps it normal and aligned. |
| `Timespecs.ShiftKeepsOrder` | statm-mpx/StatmRunningContext.cpp:437-462 | Whatever the sign of the jump, two compensated expiries in normal form stand in the order they had. |
| `Timespecs.Delay` | statm-mpx/StatmRunningContext.cpp:551-564 | The time left is the difference of expiry and clock, 0 when overdue, normal and aligned. |
| `Timespecs.SleepIsExact` | statm-mpx/StatmRunningContext.cpp:320-323 | The timeout for epoll_wait equals the delay to the nanosecond if and only if the delay is below 2^31 ms; beyond that the int wraps. |
| `Timers.RegisterValid` | statm-mpx/StatmRunningContext.cpp:584-591 | Registering keeps every timer at exactly one place, keys equal to expiries, the set sorted, and nothing deleted reachable. |
| `Timers.UpperBoundIsDue` | statm-mpx/StatmRunningContext.cpp:510 | upper_bound of the clock separates exactly the due entries from the others. |
| `Timers.InsertSorted` | statm-mpx/StatmRunningContext.cpp:538 | Insertion keeps the set sorted. |
| `Timers.InsertedAt` | statm-mpx/StatmRunningContext.cpp:538 | A timer enters the set behind all that expire no later and before all that expire later; the others stay in their order. |
| `Timers.DeleteDueValid` | statm-mpx/StatmRunningContext.cpp:519-526 | Deleting the due entries moves each of them from the set to the deleted ones once, and leaves no entry dangling. |
| `Timers.MoveAllValid` | statm-mpx/StatmRunningContext.cpp:529-541 | Moving the prepared timers into the set keeps all of the above. |
| `Timers.MoveAllKeeps` | statm-mpx/StatmRunningContext.cpp:534-540 | After the move a timer is running if and only if it was running, or was prepared and active. |
| `Timers.MoveAllDrops` | statm-mpx/StatmRunningContext.cpp:534-540 | And it is dropped by the move if and only if it was prepared and inactive. |
| `Timers.CompensateValid` | statm-mpx/StatmRunningContext.cpp:437-462 | A compensation moves the expiry of every pending timer by exactly the difference, and of no other timer; each is prepared once, and none is running. |
| `Timers.NextDelayIsEarliest` | statm-mpx/StatmRunningContext.cpp:543-567 | A delay is returned exactly when an active timer is pending, and it belongs to an active timer than which no other expires earlier, if the expiries of the active timers can be in time, whatever was registered before. |
| `Timers.OddIff` | statm-mpx/StatmRunningContext.cpp:586-587 | The history records exactly the registrations whose time cannot be in time. |
| `Timers.JumpKeepsOnlyActive` | statm-mpx/StatmRunningContext.cpp:437-462 | After a clock jump the next round keeps a pending timer if and only if it is active: a timer switched off for a while is lost. |
| `Timers.RunningStays` | statm-mpx/StatmRunningContext.cpp:529-541 | Without a jump a running timer stays, active or not. |
| `Timers.DestroyDeletesOnce` | statm-mpx/StatmRunningContext.cpp:161-179 | At the end every timer ever registered has been deleted exactly once, except exactly the dropped ones, which are never deleted. |
| `Descriptors.RegisterValid` | statm-mpx/StatmRunningContext.cpp:661-668 | Registering puts a new handler at the stage Prepared, unless the descriptor is negative, and leaves every other handler at its stage. |
| `Descriptors.RemoveValid` | statm-mpx/StatmRunningContext.cpp:808-825 | Removal brings a handler to the stage Doomed, listed exactly once, whether it was prepared or installed, and leaves every other handler at its stage. |
| `Descriptors.ActivateDoomedValid` | statm-mpx/StatmRunningContext.cpp:712-719 | A doomed handler is freed once and leaves list and set. |
| `Descriptors.ActivatePreparedValid` | statm-mpx/StatmRunningContext.cpp:720-727 | A prepared handler becomes installed; it was in no slot before. |
| `Descriptors.ActivateAllValid` | statm-mpx/StatmRunningContext.cpp:702-739 | ActivateDescriptors frees no handler twice, empties the list, leaves only live handlers installed, and m_nfds is their number. |
| `Descriptors.ActivateAllObjects` | statm-mpx/StatmRunningContext.cpp:702-739 | It changes no handler and frees only removed ones. |
| `Descriptors.DestroyFreesOnce` | statm-mpx/StatmRunningContext.cpp:141-159 | At the end every handler ever registered has been freed exactly once. |
| `Descriptors.AddSucceeds` | statm-mpx/StatmRunningContext.cpp:720-726 | Without a clash the kernel does not know a prepared handler's descriptor when its turn comes, so EPOLL_CTL_ADD succeeds. |
| `Descriptors.ActivateAllExact` | statm-mpx/StatmRunningContext.cpp:702-739 | Without a clash, after ActivateDescriptors the kernel watches exactly the installed handlers' descriptors, with their flags. |
| `Interests.ActivateAllTraced` | statm-mpx/StatmRunningContext.cpp:702-739 | Clash or no clash, what the kernel watches a descriptor for is what some live handler asks for, or a removal for that descriptor is under way. |
| `Interests.WatchedIff` | statm-mpx/StatmRunningContext.cpp:702-739 | ActivateDescriptors leaves the descriptor of every live handler watched if and only if each of them was watched or listed before, and has no removed handler as its last entry in m_cblist. |
| `Interests.ToldIff` | statm-mpx/StatmRunningContext.cpp:702-739 | ActivateDescriptors leaves every live handler with its own flags in the kernel if and only if, besides, live handlers for one descriptor ask for the same flags. |
| `Interests.ToldIffSurvivorsLast` | statm-mpx/StatmRunningContext.cpp:702-739 | Where every live installed handler is watched before, the condition is that no descriptor with a live handler has a removed one as its last entry, and that handlers sharing a descriptor agree. |
| `Interests.ClashLosesInterest` | statm-mpx/StatmRunningContext.cpp:712-714 | The shortest history of the first kind: a removal takes away the interest of a live, installed handler. |
| `Interests.ClashHidesFlags` | statm-mpx/StatmRunningContext.cpp:720-726 | The shortest history of the second kind: EPOLL_CTL_ADD fails for a second handler, nothing is removed, and the kernel never hears of its EPOLLOUT. |
| `InternalQueues.ParseInvertsFlatten` | statm-mpx/StatmRunningContext.cpp:1155-1157 | Reading the frames of any list of messages gives back these messages, boundaries intact. |
| `InternalQueues.Capacity` | statm-mpx/StatmRunningContext.cpp:1140 | A new buffer is a multiple of 1024, strictly larger than needed, by at most 1024. |
| `InternalQueues.Send` | statm-mpx/StatmRunningContext.cpp:1109-1161 | A message is accepted whole at the end of the queue, or not at all, which happens if and only if neither the room behind nor that in front helps and memory is short; the frames move, and the buffer is a new one, only when they must; messages written ++ pending == accepted is kept. |
| `InternalQueues.Passes` | statm-mpx/StatmRunningContext.cpp:1076-1089 | A pipe takes as many messages as it has room for, or all there are before an empty one. |
| `InternalQueues.Drain` | statm-mpx/StatmRunningContext.cpp:1073-1092 | Exactly that many more are written; messages written ++ pending stay the same, and with them written ++ pending == accepted. |
| `InternalQueues.DrainSplits` | statm-mpx/StatmRunningContext.cpp:1073-1092 | So the front of what was pending has been written, and the rest stays, the message that a full pipe refuses among it. |
| `InternalQueues.DrainEmptiesIff` | statm-mpx/StatmRunningContext.cpp:1076-1089 | A pipe with room for everything takes everything if and only if no message is empty. |
| `InternalQueues.StepsKeepFifo` | statm-mpx/StatmRunningContext.cpp:1073-1161 | Over every sequence of sends, failed allocations and writes to the pipe, messages written ++ messages pending == messages accepted, in order. |
| `InternalQueues.EmptyMessageBlocks` | statm-mpx/StatmRunningContext.cpp:1073-1161 | With an empty message at the head nothing is written any more, over all sends and writes to come, and all that is pending stays pending. |
| `InternalQueues.InternalQueue.MoveDown` | statm-mpx/StatmRunningContext.cpp:1124-1130 | The byte loop moves overlapping segments correctly. |
| `InternalQueues.InternalQueue.Compact` | statm-mpx/StatmRunningContext.cpp:1114-1135 | Compaction, when the room is short, moves the frames to the start and changes nothing else. |
| `InternalQueues.InternalQueue.Grow` | statm-mpx/StatmRunningContext.cpp:1137-1153 | Reallocation keeps the frames; base <= read <= write <= end stays. |
| `InternalQueues.InternalQueue.MQSend` | statm-mpx/StatmRunningContext.cpp:1109-1161 | The pointer code does what Send says, through compaction, reallocation and failed malloc; the buffer stays the same while there is room in it. |
| `InternalQueues.InternalQueue.WriteInternalMessageQueue` | statm-mpx/StatmRunningContext.cpp:1073-1092 | The pointer code does what Drain says: what the pipe takes leaves the buffer, and no more; the handler loses EPOLLOUT exactly when nothing is pending, and the branch for a cut-off frame is never taken. |
| `MultiplexerProofs.ApplyInv` | statm-mpx/StatmRunningContext.cpp:584-825 | Every public operation keeps the whole invariant and touches neither the running timers, nor the installed handlers, nor the history of the round. |
| `MultiplexerProofs.SendInv` | statm-mpx/StatmRunningContext.cpp:1109-1161 | After any MQSend the write handler asks for EPOLLOUT exactly while messages are pending and one has been accepted since CreateInternalMQ. |
| `MultiplexerProofs.StopInv` | statm-mpx/StatmRunningContext.cpp:1170-1193 | StopMQ dooms both private handlers and keeps the invariant, also when used twice. |
| `MultiplexerProofs.OneServer` | statm-mpx/StatmRunningContext.cpp:661-668 | Without a clash two live handlers never serve one descriptor. |
| `MultiplexerProofs.ClashIff` | statm-mpx/StatmRunningContext.cpp:661-668 | Registering for a descriptor is a clash if and only if a live handler serves it; not when that one has been removed, even in the same round. |
| `MultiplexerProofs.HandleTimersInv` | statm-mpx/StatmRunningContext.cpp:503-541 | For any callbacks the timers called in one HandleTimers are a selection, in order, of those due at entry; exactly the due ones are deleted; and over the whole history none fired twice or early. |
| `MultiplexerProofs.DueFiresIffActive` | statm-mpx/StatmRunningContext.cpp:508-518 | For any callbacks, a due timer fires in that HandleTimers if and only if it is active when it is reached, after the callbacks of the timers before it. |
| `MultiplexerProofs.FiredInOrder` | statm-mpx/StatmRunningContext.cpp:508-518 | The callbacks of one HandleTimers run in nondecreasing order of expiry, each for a timer known at entry, and none before its expiry, also in real time if that expiry can be in time. |
| `MultiplexerProofs.InvokeInv` | statm-mpx/StatmRunningContext.cpp:617-619 | A handler is called if and only if it is not removed at that moment. |
| `MultiplexerProofs.DispatchInv` | statm-mpx/StatmRunningContext.cpp:606-622 | During HandleDescriptors, for any callbacks, m_cbset stays as it is, and only handlers are called that were installed and live at the beginning. |
| `MultiplexerProofs.RemovedNeverInvoked` | statm-mpx/StatmRunningContext.cpp:606-622 | A handler removed, or not yet installed, by the middle of a batch is not called in the rest of it. |
| `MultiplexerProofs.SkewAligned` | statm-mpx/StatmRunningContext.cpp:380-410 | The clocks' disagreement is a whole number of milliseconds, so compensation keeps timers aligned. |
| `MultiplexerProofs.CheckTimeInv` | statm-mpx/StatmRunningContext.cpp:368-424 | A clock check, with or without compensation and hook, keeps the invariant and sets both clocks to what was read. |
| `MultiplexerRuns.StartInv` | statm-mpx/StatmRunningContext.cpp:281-296 | From a fresh context, after any public operations, sends among them, MainLoop enters its loop with the invariant. |
| `MultiplexerRuns.RunInv` | statm-mpx/StatmRunningContext.cpp:301-347 | The invariant holds after any number of rounds, for all wake-ups, clock readings and callbacks. |
| `MultiplexerRuns.AtEveryWait` | statm-mpx/StatmRunningContext.cpp:301-326 | At every epoll_wait of every run: each handler is unborn, installed or freed; m_nfds counts the installed; every live handler's flags are in the kernel exactly under the condition of ToldIff; without a clash the kernel watches exactly the installed handlers, and the queue's pipe for output exactly while messages are pending and one was accepted since CreateInternalMQ; and, if the active timers' expiries at that moment can be in time, the timeout is exact if and only if some active timer, or none, is less than 2^31 ms away. |
| `MultiplexerRuns.SleepExactIff` | statm-mpx/StatmRunningContext.cpp:317-323 | epollTimer is -1 when no timer is active and otherwise the time until the earliest active one, without loss, if and only if that one is less than 2^31 ms away. |
| `MultiplexerRuns.RemovedNeverCalled` | statm-mpx/StatmRunningContext.cpp:606-622 | A handler that has been removed, or freed since, is never called again, however the run goes on. |
| `MultiplexerRuns.CheckTimeDrift` | statm-mpx/StatmRunningContext.cpp:405-413 | One clock check takes from a pending timer's time left exactly the monotonic time elapsed and, if no more than a second, the clocks' disagreement. |
| `MultiplexerRuns.RunDrift` | statm-mpx/StatmRunningContext.cpp:301-347 | Over n rounds a pending timer deviates from the monotonic clock by the sum of the uncorrected disagreements, at most n seconds. |
| `MultiplexerRuns.LoopStopsAtAWait` | statm-mpx/StatmRunningContext.cpp:301-347 | Wherever the loop stops, it stops in one of the states AtEveryWait speaks of, the first in which it could. |
| `MultiplexerRuns.DoneIff` | statm-mpx/StatmRunningContext.cpp:311-318 | The loop is left if and only if m_quit is set, or no handler is installed and no active timer pending. |
| `MultiplexerRuns.LoopStopsFirst` | statm-mpx/StatmRunningContext.cpp:301-347 | It goes on at every wait at which that is not so, and stops at the first at which it is. |
| `Callbacks.TimersDo` | statm-mpx/StatmRunningContext.cpp:584-591 | After any operations there is one prepared timer more for each registration, in order, active unless it was disabled since, with the time registered, cut to milliseconds; every other timer has its time, and the activity that the last EnableTimer or DisableTimer for it asked for. |
| `Callbacks.HandlersDo` | statm-mpx/StatmRunningContext.cpp:661-825 | One prepared handler more for each registration with a descriptor, with its descriptor and flags; every live one has been removed if and only if that was asked for, and otherwise has each flag as last asked for. |
| `Callbacks.QueueDoes` | statm-mpx/StatmRunningContext.cpp:1109-1193 | The messages sent are accepted in order, all that memory was found for; nothing is written; the private handlers are removed and their descriptors closed if and only if StopMQ is among the operations; m_quit is set if and only if it was, or Quit is among them. |
| `Callbacks.CallDoes` | statm-mpx/StatmRunningContext.cpp:508-518 | A callback does all of this for the operations it is made of, and counts as one call. |
| `Callbacks.FireDoes` | statm-mpx/StatmRunningContext.cpp:513-517 | The callback of a due timer does it after the timer has been switched off; an inactive timer has no callback. |
| `Callbacks.InvokeDoes` | statm-mpx/StatmRunningContext.cpp:617-619 | The callback of a live handler does it, or, if it is the write handler, writes what the pipe takes and asks for EPOLLOUT no longer once nothing is left; a removed handler has none. |
| `Callbacks.HookDoes` | statm-mpx/StatmRunningContext.cpp:380-418 | The time hook runs, after the timers have been moved by the difference, if and only if the wall clock went more than a second ahead of the other or fell more than a second behind; otherwise only the clocks are set. |
| `Callbacks.SignalsDo` | statm-mpx/StatmRunningContext.cpp:330-334 | After an interruption the signals' callbacks run, and then the clocks are checked. |
| `Callbacks.StartDoes` | statm-mpx/StatmRunningContext.cpp:285-296 | MainLoop reads the clocks, makes the queue and then runs the initialisation callback. |
| `Dispatches.DispatchCalls` | statm-mpx/StatmRunningContext.cpp:606-622 | Only handlers are called that are installed for a descriptor that was reported. |
| `Dispatches.CalledAsReported` | statm-mpx/StatmRunningContext.cpp:606-622 | An installed handler that is not removed by the end of the batch is called exactly as often as its descriptor was reported. |
| `Dispatches.InReportOrder` | statm-mpx/StatmRunningContext.cpp:608-621 | The calls for what was reported first come first. |
| `Dispatches.InvokeAllInOrder` | statm-mpx/StatmRunningContext.cpp:613-620 | Handlers of one descriptor are called in the order of m_cbset. |
| `Dispatches.EqualRangeJoin` | statm-mpx/StatmRunningContext.cpp:613 | Which is the order in which they were installed. |
| `Dispatches.CalledInRound` | statm-mpx/StatmRunningContext.cpp:301-347 | From one epoll_wait to the next a handler is called only if the first of them reports its descriptor. |
| `QueueRuns.CreateQueueAwakeIff` | statm-mpx/StatmRunningContext.cpp:196-206 | CreateInternalMQ leaves the write handler in step with the queue if and only if nothing had been sent before. |
| `QueueRuns.WakesIff` | statm-mpx/StatmRunningContext.cpp:1109-1161 | Where it does not, any list of public operations restores it if and only if a send among them is accepted, or the queue is stopped. |
| `QueueRuns.WokenIff` | statm-mpx/StatmRunningContext.cpp:301-347 | And at any epoll_wait, however many rounds later, it is restored if and only if a further message was accepted, the queue was stopped, or all of it was written without being asked for. |
| `QueueRuns.ReportedIsWritten` | statm-mpx/StatmRunningContext.cpp:606-622 | Every message accepted before an epoll_wait that reports the pipe has been written when that batch is over, unless the queue is stopped in it, a message is empty or the pipe has no room; this holds for any callbacks and any other descriptors reported. |
| `RunningContexts.StatmRunningContext.constructor` | statm-mpx/StatmRunningContext.cpp:113-129 | A new context is valid, empty and has called nothing. |
| `RunningContexts.StatmRunningContext.Perform` | statm-mpx/StatmRunningContext.cpp:584-825 | Each public operation on the fields has the effect its value form states, and no other. |
| `RunningContexts.StatmRunningContext.RunCallback` | statm-mpx/StatmRunningContext.cpp:516-516 | A callback on the fields carries out all its operations. |
| `RunningContexts.StatmRunningContext.FireDue` | statm-mpx/StatmRunningContext.cpp:508-518 | The callback loop over m_tmrset, which callbacks may prepare timers during. |
| `RunningContexts.StatmRunningContext.DeleteDue` | statm-mpx/StatmRunningContext.cpp:519-526 | The deletion loop. |
| `RunningContexts.StatmRunningContext.MoveTimers` | statm-mpx/StatmRunningContext.cpp:529-541 | The loop that moves m_tmrlist into m_tmrset. |
| `RunningContexts.StatmRunningContext.ComputeTimer` | statm-mpx/StatmRunningContext.cpp:543-567 | The search for the first active timer and the sleep until it. |
| `RunningContexts.StatmRunningContext.HandleTimers` | statm-mpx/StatmRunningContext.cpp:503-568 | The three loops and the tail together; the invariant and the once-only history are kept. |
| `RunningContexts.StatmRunningContext.CompensateTimers` | statm-mpx/StatmRunningContext.cpp:437-462 | Both loops together move each pending timer once and prepare them all. |
| `RunningContexts.StatmRunningContext.CheckTimeValidity` | statm-mpx/StatmRunningContext.cpp:368-424 | The clock check on the fields. |
| `RunningContexts.StatmRunningContext.ActivateDescriptors` | statm-mpx/StatmRunningContext.cpp:702-739 | The loop over m_cblist. |
| `RunningContexts.StatmRunningContext.HandleDescriptors` | statm-mpx/StatmRunningContext.cpp:606-622 | The loops over the reported descriptors and their slots. |
| `RunningContexts.StatmRunningContext.CreateInternalMQ` | statm-mpx/StatmRunningContext.cpp:196-206 | Two handlers for the pipe's ends, the second without EPOLLOUT. |
| `RunningContexts.StatmRunningContext.StopMQ` | statm-mpx/StatmRunningContext.cpp:1170-1193 | Both private handlers removed, both ends closed. |
| `RunningContexts.StatmRunningContext.MainLoop` | statm-mpx/StatmRunningContext.cpp:300-347 | The loop over any wake-ups: it is left by itself if and only if m_quit is set, or m_cbset is empty and no pending timer is active; otherwise it sleeps with the timeout of the last wait. |
| `RunningContexts.StatmRunningContext.Destroy` | statm-mpx/StatmRunningContext.cpp:137-180 | The destructor frees every handler once and deletes every timer once, the dropped ones excepted. |
| `SignalPools.PoolSize` | statm-mpx/StatmRunningContext.cpp:66-78 | The pool has 10 to 100 messages: the number set, when it is one of these, 10 by default, and 100 for a negative number. |
| `SignalPools.RegisteredInFront` | statm-mpx/StatmRunningContext.cpp:845-872 | Registrations with a good number stand at the front of its list, the newest first, before those that were there; bad ones are nowhere. |
| `SignalPools.CallsRan` | statm-mpx/StatmRunningContext.cpp:956-971 | Every call-back that is called has run: the tables afterwards are those before with the registrations of just these call-backs, in order. |
| `SignalPools.NewestWaitsFirst` | statm-mpx/StatmRunningContext.cpp:908-919 | Captured signals wait in the reverse order of their arrival, before those that waited already. |
| `SignalPools.WrongWay` | statm-mpx/StatmRunningContext.cpp:960-970 | No handler of another multiplexer is called, and none of its own is posted to. |
| `SignalPools.EachHandlerOnce` | statm-mpx/StatmRunningContext.cpp:943-971 | Over all waiting signals, whatever the call-backs register meanwhile, a handler is reached for each signal of its number at least as often as it was registered before and at most as often as it is after. |
| `SignalPools.QuietHandlerOnce` | statm-mpx/StatmRunningContext.cpp:943-971 | So, while call-backs register nothing, exactly once per registration. |
| `SignalPools.TurnDelivers` | statm-mpx/StatmRunningContext.cpp:956-970 | The k-th waiting signal reaches exactly the handlers registered for its number when its turn comes, the newest first, after the deliveries of those before it and before those of the rest. |
| `SignalPools.PoolConserved` | statm-mpx/StatmRunningContext.cpp:908-978 | Over any captures and handlings |waiting| + |preallocated| stays the size of the pool, and accepted signals are handled or waiting, each as often as it came. |
| `SignalPools.DropsIffFull` | statm-mpx/StatmRunningContext.cpp:912-917 | A signal is dropped if and only if all messages are waiting. |
| `SignalPools.SigInfoMsgs.constructor` | statm-mpx/StatmRunningContext.cpp:66-84 | The preallocated list has as many distinct messages as the setting asks for. |
| `SignalPools.SigInfoMsgs.HandleSignal` | statm-mpx/StatmRunningContext.cpp:908-919 | In signal context one message changes lists, or none when the stock is empty; both lists stay acyclic and disjoint. |
| `SignalPools.SigInfoMsgs.HandleAllSignals` | statm-mpx/StatmRunningContext.cpp:938-978 | The two nested list loops make exactly the deliveries these lemmas speak of, while the call-backs they run register handlers in the lists they walk through; and they refill the stock. |
| `SignalPools.SignalHandlers.Deliver` | statm-mpx/StatmRunningContext.cpp:956-971 | The inner loop reaches the handlers that were in the list when it began; those registered during it are in the lists afterwards. |
| `SignalPools.SignalHandlers.RegisterSignal` | statm-mpx/StatmRunningContext.cpp:845-872 | A handler becomes the first of its signal's list, or nothing happens for a bad number or a failed sigaction. |
| `SignalPools.SignalHandlers.RemoveSignal` | statm-mpx/StatmRunningContext.h:659-665 | Exactly the given handler leaves its list; the rest keeps its order, the other lists are untouched. |
| `Election.ElectionSafety` | statm-core/StatmController.cpp:360-396 | For any number of processes and any interleaving with late SETVAL, failures, crashes and deaths: one process at most in the critical section, none both client and listener, and one live listener at most as long as connect fails only for want of one. |
| `Election.OnlyStartersListen` | statm-core/StatmController.cpp:377-390 | Only a process with a start or restart command ever becomes a listener. |
| `Election.CrashReleases` | statm-core/StatmController.cpp:247-260 | A crash within the section gives the semaphore back through SEM_UNDO. |
| `Election.UsurpsIff` | statm-core/StatmController.cpp:370-390 | A failed client attempt that ends in listening leaves one listener at most if and only if there was none. |
| `Election.SpuriousFailureUsurps` | statm-core/StatmController.cpp:422-468 | A run of two processes in which a client attempt that fails for another reason leads to two live listeners. |
| `Election.BecomesClient` | statm-core/StatmController.cpp:370-375 | A process that finds a live listener leaves the section as a client, whatever its command; nothing changes for the others. |
| `Election.ClientIff` | statm-core/StatmController.cpp:422-468 | An attempt makes a client if and only if the path names a live socket, however many others live. |
| `Election.GivesUp` | statm-core/StatmController.cpp:377-383 | One that finds none, and has another command than start or restart, leaves the section and ends. |
| `Election.BecomesController` | statm-core/StatmController.cpp:385-390 | One that finds none, and may listen, ends as the controller with the path and the only new live socket, which its worker then holds. |
| `Election.TriesAgain` | statm-core/StatmController.cpp:392-395 | One that fails on the way closes its socket, leaves the section and waits for it anew. |
| `Election.SecondIsClient` | statm-core/StatmController.cpp:360-375 | A run of two processes in which the later one, with any command, becomes the client of the first. |
| `Election.ListensAgain` | statm-core/StatmController.cpp:360-390 | A run in which the worker of a controller dies, a stop leaves it alone, and a restart makes it listen again. |
| `Election.LoserWaits` | statm-core/StatmController.cpp:298-327 | A run in which two find no semaphore: one makes it, the other cannot pass before it is initialised. |
| `Election.CrashCloses` | statm-core/StatmController.cpp:360-396 | A crash closes the listening socket if the process holds it itself; one that its worker holds lives until the worker dies. The path stays. |
| `Election.LostIff` | statm-core/StatmController.cpp:308-326 | A state from which nobody can get into the section any more arises if and only if the process that made the semaphore fails at its SETVAL, which goes unnoticed, or crashes before it. |
| `Election.LostForEver` | statm-core/StatmController.cpp:247-260 | In such a state no process ever gets into the section, whatever happens. |
| `Election.FirstListener` | statm-core/StatmController.cpp:298-396 | A lone starter gets through semaphore creation, SETVAL, lock, connect, unlink, bind, listen and unlock, and is the listener. |
| `Xdr.RequestBack` | statm-msg/StatmMessages.x:115-122 | decode(encode(r) ++ rest) == (r, rest) for every request, with error chains, parameter arrays and texts of any length. |
| `Xdr.ReplyBack` | statm-msg/StatmMessages.x:124-129 | The same for every reply. |
| `Xdr.RequestSized` | statm-msg/StatmMessages.x:108-122 | The encoding has the separately computed size, a multiple of 4. |
| `Xdr.ReplySized` | statm-msg/StatmMessages.x:124-129 | The same for replies. |
| `Xdr.ErrorsBack` | statm-msg/StatmMessages.x:69-75 | An error list comes back, however long. |
| `Xdr.TextBack` | statm-msg/StatmMessages.x:73 | A text comes back with its padding skipped. |
| `Xdr.AnyPadding` | statm-msg/StatmMessages.x:73 | The bytes that fill a text up may be any; the decoder does not look at them. |
| `Xdr.AnyPointer` | statm-msg/StatmMessages.x:74 | Any word but 0 announces an error. |
| `Xdr.LastByte` | statm-msg/StatmMessages.x:83 | Of the word of a character only the last byte counts. |
| `Xdr.OnlyArms` | statm-msg/StatmMessages.x:115-129 | No other code than -1 and 1 is taken for a request, and none but -1 for a reply. |
| `Xdr.CharsBack` | statm-msg/StatmMessages.x:83 | The hash comes back from its 16 words. |
| `Xdr.WordLayout` | statm-msg/StatmMessages.x:41-45 | A word is four bytes, the most significant first (RFC 4506, section 4.2). |
| `Xdr.TextLayout` | statm-msg/StatmMessages.x:73 | A text is its length, its bytes and the fewest zeros that fill a multiple of four (section 4.11). |
| `Xdr.HeaderLayout` | statm-msg/StatmMessages.x:77-85 | The fields of a header stand in the order of their declaration. |
| `Xdr.ErrorLayout` | statm-msg/StatmMessages.x:69-75 | An error stands at these offsets: a word 1, kind, code, text and, behind the text's size, the next error (RFC 4506, section 4.19). |
| `Xdr.ErrorsEnd` | statm-msg/StatmMessages.x:74 | Every error list, however long, ends with a word 0. |
| `Xdr.RequestLayout` | statm-msg/StatmMessages.x:108-122 | The parts of an administrative request stand at these offsets: the word of its arm (section 4.15), the header, and behind the header's size the command, the number of parameters and the parameters. |
| `Xdr.ReplyLayout` | statm-msg/StatmMessages.x:124-129 | A reply is the word of its only arm, -1, and the header's words at their offsets. |
| `Xdr.CharsLayout` | statm-msg/StatmMessages.x:83 | The k-th byte of the hash is the last of the k-th word. |
| `Xdr.HyperLayout` | statm-msg/StatmMessages.x:104 | A 64-bit number is eight bytes, the most significant first (section 4.5). |
| `Xdr.ParametersLayout` | statm-msg/StatmMessages.x:112 | Parameters follow one another without anything between (section 4.13). |
| `Xdr.EitherArm` | statm-msg/StatmMessages.x:115-122 | Whatever the request, its first word tells the arm, and the words of the header stand at the same offsets behind it, so version and sender can be read before the type. |
| `Xdr.ParameterLayout` | statm-msg/StatmMessages.x:101-106 | Likewise those of a parameter. |
| `Xdr.RequestMore` | statm-msg/StatmMessages.x:115-122 | What decodes, decodes alike with more bytes behind it. |
| `Xdr.CutRequestIsBad` | statm-msg/StatmMessages.x:115-122 | No proper beginning of an encoded request decodes, so no request can be taken for a part of another. |
| `OutputBuffers.CapacityHolds` | statm-core/StatmController.cpp:882-905 | In 32-bit arithmetic a new buffer holds what is in it and the frame to come if and only if their sum is below 2^32 - 1024; then it is a multiple of 1024, larger by at most 1024. |
| `OutputBuffers.PostSound` | statm-core/StatmController.cpp:874-927 | A post adds exactly one frame, or nothing when malloc fails; a grown buffer is strictly larger than needed. |
| `OutputBuffers.StreamCarriesFrames` | statm-core/StatmController.cpp:1061-1081 | Over any posts, failed allocations and partial sends, bytes sent ++ bytes buffered == the frames accepted, in order, and EPOLLOUT is wanted exactly while bytes wait. |
| `OutputBuffers.ClosesIff` | statm-core/StatmController.cpp:1066-1073 | A connection is released if and only if a send fails; what was sent stays sent, what was buffered is gone. |
| `OutputBuffers.ClosedStays` | statm-core/StatmController.cpp:1066-1073 | Nothing more is sent or accepted on it then. |
| `OutputBuffers.OutputBuffer.Encode` | statm-core/StatmController.cpp:907-921 | The encoder refuses what does not fit and never writes past the end. |
| `OutputBuffers.OutputBuffer.PostRequest` | statm-core/StatmController.cpp:874-927 | The buffer code does what Post says, and its encoders never fail. |
| `OutputBuffers.OutputBuffer.Grow` | statm-core/StatmWorker.cpp:510-533 | Reallocation keeps what is buffered. |
| `OutputBuffers.OutputBuffer.HandleWritable` | statm-core/StatmWorker.cpp:421-436 | The bytes the peer took leave the front, the rest moves down, and EPOLLOUT goes with the last byte. |
| `FrameLoops.Heard` | statm-core/StatmController.cpp:1235-1246 | The requests up to and with the first start, restart or stop. |
| `FrameLoops.StopsIff` | statm-include/StatmCommon.h:42-46 | A command ends the connection if and only if its word is 2, 3 or 4: start, restart or stop. |
| `FrameLoops.ScanRefuses` | statm-core/StatmController.cpp:1217-1233 | A frame whose body cannot be decoded ends the loop where it stands, one with another type behind it; no request comes out of either. |
| `FrameLoops.ScanInvertsFraming` | statm-core/StatmController.cpp:1192-1256 | From one read of whole frames and a piece of another exactly the framed requests come out, in order, up to the first that ends the connection; the piece is left over. |
| `FrameLoops.ScanTail` | statm-core/StatmController.cpp:1197-1215 | A piece of a frame is left for later. |
| `FrameLoops.SentIsHeard` | statm-core/StatmController.cpp:1192-1256 | Whatever part of a stream has been sent reads as a beginning of the posted requests; once the buffer is drained, all of them have been heard. |
| `FrameLoops.AdvanceIsTurn` | statm-core/StatmController.cpp:1197-1227 | For a size word that is not negative the loop moves on by the frame that is taken. |
| `FrameLoops.StandsStill` | statm-core/StatmController.cpp:1212-1227 | With a size word of -4, and a request behind it that does not end the connection, the loop is at the same place after any number of turns. |
| `FrameLoops.ForwardEnds` | statm-core/StatmController.cpp:1212-1227 | With no size word below -3 in the buffer the loop is left within usedSpace + 1 turns. |
| `FrameLoops.MasterClient.HandleFrame` | statm-core/StatmController.cpp:1195-1255 | One turn of the loop, for size words that are not negative and leave room for four more: which way it leaves, or which request it takes, and what m_commandCode becomes. Other size words end it here, not in the program. |
| `FrameLoops.MasterClient.HandleFrames` | statm-core/StatmController.cpp:1190-1256 | The loop does what Scan says, with usedSpace as its measure; like HandleFrame it ends at a size word that is negative or too large. |
| `LinkedLists.Unlink` | statm-core/StatmStatDriver.cpp:110-120 | Setting the link that leads to a node to the node's own takes exactly that node out of the list. |
| `ChangeTrackers.WantedBits` | statm-core/StatmStatDriver.cpp:213-214 | Trackers are called for masks with bit 3 or bit 7, IN_CLOSE_WRITE or IN_MOVED_TO. |
| `ChangeTrackers.UnregisterUndoes` | statm-core/StatmStatDriver.cpp:75-130 | Unregistering the datum just registered restores the trackers, whatever was there before. |
| `ChangeTrackers.Unpacked` | statm-core/StatmStatDriver.cpp:201-205 | The loop reads of a packed event exactly the event, and steps exactly behind it. |
| `ChangeTrackers.EachTrackerOnce` | statm-core/StatmStatDriver.cpp:193-217 | Each CLOSE_WRITE or MOVED_TO event reaches each tracker of its watch once per registration; no other call is made. |
| `ChangeTrackers.EventOrder` | statm-core/StatmStatDriver.cpp:193-217 | Events are served in the order they came. |
| `ChangeTrackers.StatmStatDriver.RegChgTracker` | statm-core/StatmStatDriver.cpp:75-102 | A tracker becomes the first of its watch's list; all other watches are as before. |
| `ChangeTrackers.StatmStatDriver.Find` | statm-core/StatmStatDriver.cpp:110-116 | The pointer-to-pointer loop stops at the first tracker with the datum, or at the end if there is none. |
| `ChangeTrackers.StatmStatDriver.UnregChgTracker` | statm-core/StatmStatDriver.cpp:104-130 | Only the first tracker with the datum leaves, the others keep their order; 0 exactly if there was one; entry and watch go with the last one. |
| `ChangeTrackers.StatmStatDriver.GetChgInfo` | statm-core/StatmStatDriver.h:59 | Looking up a watch may leave an empty entry behind, which is not to be seen. |
| `ChangeTrackers.StatmStatDriver.ReadNotifyChanges` | statm-core/StatmStatDriver.cpp:191-217 | For any whole events, exactly their calls are made, newest tracker first, and the loop ends. |
| `AdapterChains.Row` | statm-stat/StatisticalAdapterThread.cpp:482-507 | An adapter has its row's directory, and its number modulo 2^16. |
| `AdapterChains.NewestFirst` | statm-stat/StatisticalAdapterThread.cpp:167-171 | Behind the head, the adapter joined last stands first. |
| `AdapterChains.RowsKeepChains` | statm-stat/StatisticalAdapterThread.cpp:147-173 | After any rows each directory that has adapters has one chain, under the number of its first adapter, which leads; the others follow, the newest first; nobody is missing. |
| `AdapterChains.SkippedIff` | statm-stat/StatisticalAdapterThread.cpp:148-149 | A row is skipped if and only if an adapter with its number leads a chain. |
| `AdapterChains.RowTakenTwice` | statm-stat/StatisticalAdapterThread.cpp:482-507 | So a row that joined a chain makes a second adapter when it is read again. |
| `AdapterChains.StatisticalAdapterThread.FindDir` | statm-stat/StatisticalAdapterThread.cpp:161-166 | The search over the heads finds the chain of the directory, if there is one. |
| `AdapterChains.StatisticalAdapterThread.InsertBehind` | statm-stat/StatisticalAdapterThread.cpp:167-171 | The two link assignments put the adapter right behind the head. |
| `AdapterChains.StatisticalAdapterThread.AddRow` | statm-stat/StatisticalAdapterThread.cpp:482-507 | A row makes at most one adapter, which is in exactly one chain, as are all made before. |
| `AdapterChains.StatisticalAdapterThread.Destroy` | statm-stat/StatisticalAdapter.cpp:163-170 | The destructor deletes the chain behind an adapter, each once. |
| `AdapterChains.StatisticalAdapterThread.Release` | statm-stat/StatisticalAdapterThread.cpp:58-67 | Every adapter ever made is deleted exactly once, and nothing else. |
| `RecordFiles.IntOfBack` | statm-stat/StatisticalAdapter.cpp:453-462 | Reading a word inverts 4-byte big-endian two's complement. |
| `RecordFiles.ReadInt` | statm-stat/StatisticalAdapter.cpp:453-462 | The shift-and-add loop in 32 bits reads that word. |
| `RecordFiles.FileBackIff` | statm-stat/StatisticalAdapter.cpp:654-676 | A file comes back as the list it was written from if and only if every name in it ends with a 0 byte. |
| `RecordFiles.CutFile` | statm-stat/StatisticalAdapter.cpp:656-674 | From a file that ends early come exactly the records that are whole. |
| `RecordFiles.FlagIsBit16` | statm-stat/StatisticalAdapter.cpp:668 | Bit 16 of the group, and nothing else, says that a name follows. |
| `RecordFiles.Object` | statm-stat/StatisticalAdapter.cpp:714-717 | The object is the name up to its first 0 byte if there is one, and otherwise the group less 1000, in 32 bits. |
| `RecordFiles.TypeLabel` | statm-stat/StatisticalAdapter.cpp:678-691 | The type is named by its entry with the number -1, and by its number if it has none. |
| `RecordFiles.NamesMeetValues` | statm-stat/StatisticalAdapter.cpp:694-708 | The k-th name and the k-th value belong to the same counter; every counter that has a name is there, in order. |
| `RecordFiles.CString` | statm-stat/StatisticalAdapter.cpp:714-715 | A name is printed up to its first 0 byte, and there is one. |
| `RecordFiles.CollectCounters` | statm-stat/StatisticalAdapter.cpp:694-708 | The loop over the 31 counters. |
| `RecordFiles.CollectRecord` | statm-stat/StatisticalAdapter.cpp:654-676 | One turn: a record with its name if it has one, or nothing when the file ends within it. |
| `RecordFiles.CollectStatData` | statm-stat/StatisticalAdapter.cpp:654-722 | The loop makes one element for each record of the file, in order, and ends. |

## Left out

- ElectionSafety: the uniqueness of the listener is stated for runs without a spurious failure of `connect`; `Election.UsurpsIff` says what one such failure does.
- UsurpsIff: speaks of one process that listens without being interrupted.
- PostRequest: requires that the frame fits, or that the sum of used and needed bytes stays below 2^32 - 1024; by `OutputBuffers.CapacityHolds` a buffer that has to grow would not hold the frame otherwise.
- HandleWritable: the source moves the rest of the buffer with `memcpy` on overlapping segments; the model moves it correctly.
- HandleFrame: a size word that is negative, or within 4 of 2^31, ends the loop as `BadSize`; the program goes on and decodes what its buffer holds behind the word, received or not. For a negative one `FrameLoops.Advance` says where that takes it, as long as it reads within its buffer.
- HandleFrames: therefore says nothing about such words; `FrameLoops.StandsStill` and `FrameLoops.ForwardEnds` say when the program's loop goes on without end and when it ends.
- ReadNotifyChanges: an event that is cut off, or a length beyond what the kernel writes, is not modelled.
- RemoveSignal: the handler's memory is released in the source even if it is in no list; the model has no memory for it.
- HandleAllSignals: signals are captured with a number for which a handler was once registered, hence one below `_NSIG`; a posted message is counted as delivered, whether or not `MQSend` finds memory for it.
- Perform: an operation on a deleted timer or on one of the private handlers has no effect in the model; the program does not expect such a call.
- ReadInternalMessageQueue and the invocation of messages it reads: a callback like any other.
- `ReplyDescriptor`, `ChangeDescriptorHandler`, `ChangeDescriptorAppData` and the `active` flag of a descriptor, which is never reset.
- `close` of a descriptor by a callback, other than the queue's own by `StopMQ`.
- The exit callback that MainLoop calls after its loop and `StopMQ`.
- The failing `epoll_wait` and `epoll_create`, which end the loop.
- The `oldTime` given to the time hook (statm-mpx/StatmRunningContext.cpp:416), computed with the wrong sign.
- Threads: races on `MQSend`, cancellation, `StatmRunnable`, the working thread's message queue.
- Reassembly of input over several reads: `m_inputPtr` is not advanced after an incomplete frame, so only single reads are spoken of.
- The requests' meaning, time-outs of connections, forking, daemonising and restarting of the worker.
- The wait for a `semop` that is interrupted or fails on unlocking.
- The union arms that have no encoding (request type 0), the limit of glibc on array sizes, and texts in C strings without 0 bytes: the model takes texts with any bytes.
- The semaphore around the change tracker, whose unknown-watch path returns without unlocking it, and the use of a map iterator after erase.
- The file-system source of adapters, which makes no chains, and the settings' text: XML, ODBC and the tab-separated counter file.
- Adapter arguments, the collection's file handling, time stamps and the XML text around the elements.
