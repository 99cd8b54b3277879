# ServerDevLib: protocols and buffers

ServerDevLib is a small C++ server library: a reactor over epoll, a thread pool, and a logger. This
project models its step protocols between threads and the buffers those threads share, and proves what
they keep over every run. Where the code falls short of what it is meant for, the code is modelled as it
is: the failing run is exhibited, and the exact condition under which the code does what it promises is
proved in both directions.

Three kinds of modules:

- *Protocol machines* (`PoolProtocol`, `Readiness`, `Barrier`, `GuardedReadiness`, `Registry`, `SendProtocol`,
  `WriteEdges`, `MessageProtocol`, `LoggerProtocol`). A labelled step function over a state; a mutex section is
  one label, an unprotected access is a label of its own, and the labels interleave freely. `Runs` says what a
  run is. Memory is sequentially consistent.
- *Objects* (`ThreadPool`, `NotificationCenter`, `Dispatcher`, `Channel`, `IODevice`, `LogStreamBuf`,
  `LogMessage`, `Logger`, `LogFile`). Classes with the fields of the original classes. Each critical section
  is a method that performs exactly one step of its machine, and `Valid()` says that the object is in a
  state its machine can reach, so every theorem about the machine holds of the object. A log message is
  one of many, so that its machine is about all of them: `MessageOwners` keeps the messages of a program
  and their data, and says of them together what `Valid()` says of the others. `IODevice` and `LogFile` have
  no threads: their `Valid()` ties them to the history of their calls. `LogStreamBuf` is a plain buffer.
  Where the original has a loop (`WorkerThread`, `HandleReadyData`, the exchange loops of the barrier,
  `Read`, `Flush`, ...), the method has it too, with other threads running between its steps as a schedule
  argument says.
- *Theorems* about the machines (`PoolTheorems`, `ReadinessTheorems`, and the ends of the other modules),
  and about whole series of operations on a buffer (`ReceiveStream`, `IODevices`, `LogFiles`, `LogPipeline`).

System calls are replaced by arguments: what `read`, `write`, `accept` and `ReadData` return is chosen by
the caller of the model within the range the original can see.

## What was found

- **Thread pool.** Before `Shutdown` there is no lost wakeup, and tasks run once each in order, for any number
  of workers and enqueuers and with spurious wakeups. Left to itself the pool drains exactly if nothing is
  queued or some registered worker is alive (`DrainsIff`); `Init` starts a thread before it registers it, and
  a worker that looks itself up in between exits at once (`UnregisteredWorkerStrands`). `Shutdown` writes
  the stop flag before it marks the workers DEAD, and a worker writes EMPTY without the lock; a worker can
  therefore take the front of an empty queue. `UnderflowIff` and `MarkingSafeIff` say exactly from which
  states; `ShutdownQuiescence` says what holds from the others. In either case the tasks queued when the
  workers are marked are discarded for good (`DiscardedForGood`).
- **Readiness counter.** No received bytes are ever left behind a counter that says there is nothing to do
  exactly if the barrier around the counter excludes, the counter has its third value MOREPLUS, and no
  descriptor is closed in the middle of a batch (`NeverStrandsIff`). The third value is there; the barrier,
  two exchange loops, does not exclude (`ExclusiveIff`): a reader and the handler that meet in it can strand
  a byte, and the handler then spins in it (`MeetingStrands`). Runs with polite closes in which no two
  threads meet in it strand nothing (`ApartNeverStrands`); which stores strand bytes, over any run, is said
  exactly by `StrandedIff`. Whether those in the barrier get out again is decided by who is entering, who is
  inside, and the flag (`EveryoneLeavesIff`).
  `NotifyClose` erases an entry under a mutex nobody else holds at that point: closing while a reader or the
  handler goes on with the entry (`NotificationCenter.h:47-61`, `116`) is undefined behaviour, and can also
  make the handler lower the counter of the next connection with the same number (`NeverDanglesIff`,
  `CloseStrands`).
- **Registry.** Handlers and channel tables agree, object by object, exactly if no table is ever extracted,
  or at most one at a time and every event on the listening descriptor carries EPOLLIN. Without EPOLLIN
  the accept handler is asked for its last result again, which can put a second channel object for a
  live descriptor into the table (`StaleAcceptReplaces`) or register a closed descriptor again
  (`StaleAcceptReopens`, `HandlersOpenIff`).
- **Receiving.** `std::string::reserve` does not raise the size, so a take hands over at most 128 bytes; and
  the read that meets the end of the stream makes the channel inactive, so that what waits then is never
  handed over (`LastReadIsLost`). Everything read can still be handed over exactly if no take has clipped,
  none will have to, and nothing was waiting at the end of the stream (`DeliverableIff`).
- **Sending.** Nothing is lost or reordered. The write interest is lost exactly by a `write` that returns 0
  for a non-empty buffer, because that branch re-registers the default events, which lack EPOLLOUT. An
  event that carries both EPOLLIN and EPOLLOUT calls `Read` only, and with edge-triggered events the report
  that there is room is then gone; waiting data is left without a report exactly so (`UnservedIff`).
- **Ring buffer.** A FIFO, except that `Peek` copies nothing when the ring is exactly full (`_tail == _head`).
- **Logging.** Order, completeness, the cut at the first FATAL message, single hand-over and rotation
  hold as intended, down to the bytes in the files. A message is lost by being destroyed before the logger
  is set, or by move assignment over an unflushed one (`LostIff`). The limit of a log file is called a number of
  kilobytes by its setter and its comment (`include/server/logging/Logging.h:188-191`,
  `include/server/logging/LogFile.h:29`) but compared to a number of bytes; the model follows the comparison.

## Model

| member | source | states |
|---|---|---|
| PoolTheorems.NoLostWakeup | include/server/threadpool/ThreadPool.h:123-195 | In every reachable state before Shutdown, while some worker sleeps the queue is no longer than the pending notifications plus the awake workers on their way to it; when nothing moves by itself any more, a non-empty queue means that every worker has exited. |
| PoolTheorems.TaskConservation | include/server/threadpool/ThreadPool.h:128-193 | Tasks taken followed by the queue are the submissions in order; a taken task is finished exactly if no worker performs it, no two workers perform the same one, and who performs one has taken it. |
| PoolTheorems.StatusMeans | include/server/threadpool/ThreadPool.h:180-192 | In every reachable state before the workers are marked, the entry of a registered worker is EMPTY exactly from its write of EMPTY until it has taken a task, and ACTIVE otherwise. |
| PoolTheorems.RunsAreFinite | include/server/threadpool/ThreadPool.h:123-195 | Without submissions and spurious wakeups, with or without Shutdown, a run from a reachable state has at most as many steps as a weighted measure over queue, notifications and worker phases. |
| PoolTheorems.DrainsIff | include/server/threadpool/ThreadPool.h:128-194 | From any reachable state before Shutdown, wherever the program left to itself comes to rest, the queue is empty and every task submitted was taken in order and finished, if and only if nothing is queued or some registered worker is alive. |
| PoolTheorems.ComesToRest | include/server/threadpool/ThreadPool.h:123-195 | From every state that keeps the invariant, as all reachable ones do, some run of the program by itself comes to rest. |
| PoolTheorems.UnregisteredWorkerStrands | include/server/threadpool/ThreadPool.h:159-181 | A run in which the only worker looks itself up before Init registers it, exits, and leaves the next task in the queue for good. |
| PoolTheorems.UnderflowIff | include/server/threadpool/ThreadPool.h:136-195 | Once the stop flag is written, some continuation takes the front of an empty queue if and only if it has happened already or some live worker is not marked DEAD, is about to overwrite its mark, or the marking is still to come. |
| PoolTheorems.MarkingSafeIff | include/server/threadpool/ThreadPool.h:141-147 | Marking the workers makes the pool safe if and only if no worker stands between its test for ACTIVE and its unprotected write of EMPTY. |
| PoolTheorems.ShutdownQuiescence | include/server/threadpool/ThreadPool.h:136-195 | From a safe state no task is taken any more, no DEAD entry changes, no empty queue is read, the run is bounded, and where it ends every worker has exited, so that all joins return. |
| PoolTheorems.ShutdownCanUnderflow | include/server/threadpool/ThreadPool.h:138-142 | A pool with any registered live worker can read an empty queue as soon as Shutdown has written the stop flag. |
| PoolTheorems.DiscardedForGood | include/server/threadpool/ThreadPool.h:141-147 | From the mutex section of Shutdown on, in every continuation, with or without an underflow: what was submitted is what was taken before, then exactly the tasks queued at that moment, which are never taken, then what has been taken or queued since. |
| PoolProtocol.InvStep | include/server/threadpool/ThreadPool.h:123-195 | Every step of every thread keeps the status, task, order and wakeup invariants together. |
| ThreadPools.ThreadPool.constructor | include/server/threadpool/ThreadPool.h:154-175 | All workers are registered as ACTIVE; those that raced have exited, the others are about to look themselves up. |
| ThreadPools.ThreadPool.AcquireAndTake | include/server/threadpool/ThreadPool.h:184-192 | The mutex section is the Acquire step: it sleeps, leaves, takes the oldest task, or underflows. |
| ThreadPools.ThreadPool.PushTask | include/server/threadpool/ThreadPool.h:128-131 | The mutex section of EnqueueTask is the Push step. |
| ThreadPools.ThreadPool.WorkerThread | include/server/threadpool/ThreadPool.h:177-195 | The worker's loop, under any schedule of the other threads, goes through reachable states only, and returns early only after exiting or underflowing; the tasks it performs are exactly those it takes during the call, in order and none twice, except one it is in the middle of, and they are finished; a registered worker left alone for long enough performs all queued tasks. |
| ThreadPools.ThreadPool.MarkAllDead | include/server/threadpool/ThreadPool.h:141-147 | The loop over the status map is the MarkDead step: the queue is empty, every registered worker is DEAD, and nothing was taken. |
| ThreadPools.ThreadPool.Shutdown | include/server/threadpool/ThreadPool.h:136-151 | A second call changes nothing. The first, whatever other threads do before its mutex section, before `notify_all` and during the joins: only tasks submitted after its mutex section are taken or queued afterwards, so that none of those queued then runs; the joins return if and only if all workers have exited, and they have once nothing moves any more, unless a worker had underflowed or stood in its window when the workers were marked. |
| ReadinessTheorems.NeverStrandsIff | include/server/reactor/NotificationCenter.h:45-131 | With any barrier in place of the exchange loops: over every interleaving of any number of readers, closes and the handler, no bytes are left behind a counter that says there is nothing to do, if and only if that barrier excludes, the counter has three values, and no close comes during a batch or while a reader holds the entry. |
| ReadinessTheorems.StreamConservationIff | include/server/reactor/NotificationCenter.h:89-131 | For every run, whatever the barrier, the counter and the closes do: per descriptor the bytes delivered followed by those buffered are the bytes read if and only if no take found more than 128 bytes and no close found any. |
| GuardedReadiness.NeverStrandsIff | include/server/reactor/NotificationCenter.h:45-131 | With the barrier as it is written, no run strands any bytes if and only if there are no readers. |
| GuardedReadiness.StrandedIff | include/server/reactor/NotificationCenter.h:45-131 | With the barrier as it is written and polite closes, over a whole run: bytes are stranded at the end if and only if nobody is in the middle of anything with their descriptor, some store left the counter too low for them (a reader that had loaded MOREPLUS before the counter was lowered, a reader that raised ONE while the handler was about to lower, or the handler storing or leaving ONE), and nothing has led back to them since. |
| GuardedReadiness.MeetingStrands | include/server/reactor/NotificationCenter.h:54-65 | With the barrier as it is written, for any number of readers, a run in which a reader and the handler meet within it, the handler overwrites the raised counter, a byte is stranded, and the handler is left spinning. |
| GuardedReadiness.ApartNeverStrands | include/server/reactor/NotificationCenter.h:45-131 | With the barrier as it is written, no run with polite closes in which two threads are never within it together strands any bytes. |
| GuardedReadiness.StreamConservationIff | include/server/reactor/NotificationCenter.h:89-131 | With the barrier as it is written, per descriptor the bytes delivered followed by those buffered are the bytes read if and only if no take found more than 128 bytes and no close found any. |
| GuardedReadiness.Projects | include/server/reactor/NotificationCenter.h:45-131 | Seen without the barrier, every run of the whole is a run of the readiness protocol without exclusion; the two statements over whole runs above rest on it. |
| ReadinessTheorems.CurrentStoresCover | include/server/reactor/NotificationCenter.h:45-131 | Whatever the barrier does, without a store of a counter that has changed since it was loaded no bytes are left behind, and the first store that leaves any is such a one. |
| ReadinessTheorems.TwoValuesStrand | include/server/reactor/NotificationCenter.h:61-64 | With a two-valued counter a run in which a notification between taking and lowering is absorbed and a byte is stranded. |
| ReadinessTheorems.CloseStrands | include/server/reactor/NotificationCenter.h:68-73 | Without polite closes a run in which the entry is erased between taking and lowering, the number is used again, and the handler lowers the counter of the new connection. |
| ReadinessTheorems.NeverDanglesIff | include/server/reactor/NotificationCenter.h:47-61 | No thread ever goes on with an entry that was erased, in any run, if and only if closes are polite. |
| Readiness.InvStep | include/server/reactor/NotificationCenter.h:45-131 | Whatever the barrier does, every step but a store of a counter that has changed since it was loaded keeps: waiting bytes are covered by a reader that still owes a notification or by a counter above ONE, which is MOREPLUS while the handler is between taking and lowering. |
| NotificationCenters.NotificationCenter.HandleReadyData | include/server/reactor/NotificationCenter.h:89-131 | With the exchange loops, under any schedule, what is handed to the pool is what is delivered, and a call that does not end spins in the barrier. Undisturbed, whatever the state: one task for each descriptor whose channel is in place and whose counter is above ONE, with at most the first 128 waiting bytes, and no others; its buffer is empty, MOREPLUS becomes MORE and MORE becomes ONE, and every other entry and buffer is as before. With idle readers, all channels in place and no meeting so far, all buffers are empty afterwards. |
| NotificationCenters.NotificationCenter.Serve | example/ReactorExample.cpp:94-103 | The serving loop of the example with nothing else going on, for any number of rounds: a descriptor whose channel is in place has a task in as many of the first rounds as its counter says (MORE one, MOREPLUS two) and in none later; from the second round on every such counter is ONE. |
| NotificationCenters.NotificationCenter.NotifyDataReady | include/server/reactor/NotificationCenter.h:45-66 | With the exchange loops, under any schedule, it goes through reachable states and afterwards owes nothing more; a call that does not end spins in the barrier; undisturbed, the counter is one higher, from MORE for a new entry up to MOREPLUS. |
| NotificationCenters.NotificationCenter.Enter | include/server/reactor/NotificationCenter.h:54-60 | Under any schedule the loop before the update ends within the barrier. |
| NotificationCenters.NotificationCenter.Leave | include/server/reactor/NotificationCenter.h:65 | Under any schedule the loop after the update ends outside, or spins with the flag cleared. |
| NotificationCenters.NotificationCenter.StoreCounter | include/server/reactor/NotificationCenter.h:61-64 | The two branches on the counter are the Store step. |
| Barrier.ExclusiveIff | include/server/reactor/NotificationCenter.h:54-65 | The exchange loops keep threads apart in every run if and only if there is at most one thread. |
| Barrier.EveryoneLeavesIff | include/server/reactor/NotificationCenter.h:54-65 | Unless somebody arrives, the threads in the barrier can all get out if and only if one of them is still entering, or none is inside, or exactly one is inside and the flag is set. |
| Barrier.MeetingSpins | include/server/reactor/NotificationCenter.h:65 | Whenever two threads are inside and nobody is entering, somebody stays inside in every continuation without arrivals. |
| Registry.AgreementIff | include/server/reactor/Dispatcher.h:173-246 | Over every interleaving, between two actions of the dispatcher the descriptors with a handler are those of the logical table, each with its handler's own channel object, if and only if no table is ever taken out, or at most one at a time and every event on the listening descriptor carries EPOLLIN. |
| Registry.RestoreIsExact | include/server/reactor/Dispatcher.h:181-189 | After a restore the channel table holds exactly the handlers' channel objects: no closed descriptor revived, none accepted again under the same number replaced. |
| Registry.TwoTablesRevive | include/server/reactor/Dispatcher.h:173-189 | With two tables out, a run in which the second restore puts a descriptor that is closed and has no handler back into the table. |
| Registry.StaleAcceptReplaces | include/server/reactor/Dispatcher.h:62-65 | A run in which an event without EPOLLIN, while the table is out, puts a second channel object for an open descriptor into the table, beside the one its handler holds. |
| Registry.StaleAcceptStays | include/server/reactor/Dispatcher.h:181-189 | A run on which putting the table back does not mend this: insertion never overwrites, so that the second channel object stays in the table. |
| Registry.HandlersOpenIff | include/server/reactor/Dispatcher.h:62-65 | However many tables are out, every descriptor with a handler is open in every reachable state if and only if every event on the listening descriptor carries EPOLLIN. |
| Registry.StaleAcceptReopens | include/server/reactor/Dispatcher.h:62-65 | A run in which an event without EPOLLIN registers the descriptor accepted last again after it was closed. |
| Registry.TableStep | include/server/reactor/Dispatcher.h:173-189 | Extracting and restoring leave the logical table unchanged, entry by entry. |
| Registry.InvStep | include/server/reactor/Dispatcher.h:207-246 | Every accept, close, extract and restore step keeps the agreement up to one accept or close in progress, and the disjointness that makes emplace and insert never meet an existing entry. |
| Dispatchers.Dispatcher.RestoreAllChannel | include/server/reactor/Dispatcher.h:181-189 | The erasing loop and the insertion are the Restore step: the table has its own entries unchanged and those that come back without the descriptors to drop, and there is nothing left to drop. |
| Dispatchers.Dispatcher.HandleNewConnection | include/server/reactor/Dispatcher.h:230-246 | With user threads in between, exactly the accepted descriptor gains a handler with a fresh channel, unless it has one; a failed accept adds none. |
| Dispatchers.Dispatcher.HandleUnexpected | include/server/reactor/Dispatcher.h:207-228 | With user threads in between, exactly the given descriptor loses its handler. |
| Dispatchers.Dispatcher.RunPending | include/server/reactor/Dispatcher.h:74-80 | The functors pending at the start run once each in order, and executed followed by pending stays the order of addition whatever is added meanwhile. |
| Dispatchers.Dispatcher.HandleEvent | include/server/reactor/Dispatcher.h:56-81 | If the descriptor has a handler, the event registers or drops the handlers its accept result and its flags call for and no others, and runs exactly the functors pending at its start, in order; if it has none, nothing changes. Handlers and tables agree, and handlers are open, where they always are. |
| Dispatchers.Dispatcher.Dispatch | include/server/reactor/Dispatcher.h:49-83 | For any series of events, with functors added before each event and while functors run, and user threads in between: every functor added before an event that finds a handler has run after it, once and in order, and none has run but those added before the last such event; each event has its effect on the handlers. |
| SendProtocol.SendStream | include/server/reactor/Channel.h:89-143 | In every reachable state bytes sent followed by the send buffer are all data appended in order; and unless a write has returned 0 for a non-empty buffer, waiting data is watched for or a notifier is about to arm. |
| SendProtocol.InterestLostByRun | include/server/reactor/Channel.h:110-118 | Over a whole run the write interest is lost at the end if and only if some write returned 0 for a non-empty buffer with nobody about to arm, and every later step appended nothing and left data in the buffer. |
| SendProtocol.WatchedIff | include/server/reactor/Channel.h:94-142 | Over a whole run the descriptor is watched for EPOLLOUT at the end if and only if some notifier armed it and no later write found the buffer empty or returned 0; the sending side is shut down if and only if some write of a non-empty buffer failed. |
| SendProtocol.ZeroWriteLosesInterest | include/server/reactor/Channel.h:112-114 | A run that loses the write interest of an active channel. |
| SendProtocol.WritesDrain | include/server/reactor/Channel.h:89-111 | From any reachable active state, as many writes as there are waiting bytes, each taking at least one, send everything accepted; the next one takes the write interest away and changes nothing else. |
| WriteEdges.UnservedIff | include/server/reactor/EventsHandler.h:24-37 | Over a whole run with edge-triggered events, data that the kernel has room for waits at the end, with every notifier armed and no report to come, if and only if some event carried both EPOLLIN and EPOLLOUT while it waited, and since then notifiers have only entered. |
| WriteEdges.ReadHidesWrite | include/server/reactor/EventsHandler.h:33-36 | A run in which an event with both flags is handled by Read alone and waiting data is left without a report. |
| ReceiveStream.ConservedIff | include/server/reactor/Channel.h:153-163 | For every sequence of reads, takes and closes, the payloads in order followed by the waiting bytes are the bytes read if and only if no take finds more than 128 bytes waiting. |
| ReceiveStream.DeliverableIff | include/server/reactor/Channel.h:60-87 | After any sequence of reads, takes and closes, some continuation hands over everything read in order if and only if no take has clipped, at most 128 bytes wait, and none wait if the channel is inactive. |
| ReceiveStream.LastReadIsLost | include/server/reactor/Channel.h:76-83 | Bytes read by the call that also meets the end of the stream reach no payload in any continuation. |
| Channels.Channel.Read | include/server/reactor/Channel.h:55-87 | The loop calls read until a call brings nothing: each call is asked for at least one byte and its result is what the socket allows, the bytes used are the sum of the results and are added to those waiting. It ends with the end of the stream exactly if the last result is 0, which closes the channel with the bytes read still waiting; otherwise data is announced. If every call brings something while there is anything, everything offered is read; if the first call meets the end of the stream, nothing is. |
| Channels.CallsMean | include/server/reactor/Channel.h:62-68 | Of the calls of one Read, all but the last have brought bytes, all are asked for at least one byte, 0 is returned exactly where the socket says so and never for lack of room, and the bytes used are those the calls have brought. |
| Channels.Channel.GrowAndCount | include/server/reactor/Channel.h:62-68 | A filled buffer grows first, so that room is left, and the string still holds the first bytes waiting. |
| Channels.Channel.GetReceivedData | include/server/reactor/Channel.h:153-163 | Hands over the first 128 waiting bytes or all of them, and empties; nothing once the channel is inactive. |
| Channels.Channel.AppendData | include/server/reactor/Channel.h:125-137 | All three branches append at the end of the send buffer. |
| Channels.Channel.Write | include/server/reactor/Channel.h:89-119 | All branches on the buffer and the result are the Write step. |
| IODevices.IODevice.Read | include/server/IODevice.h:69-92 | The ring refilled from the source loses its first bytes to the caller, who finds exactly them in the buffer, unless the refilled ring is exactly full (or the device sequential), when the buffer is untouched; the call and what the caller found are added to the history. |
| IODevices.IODevice.Peek | include/server/IODevice.h:42-55 | Copies the oldest bytes across the wrap-around, which are those of the source behind what was delivered, and nothing when the ring is exactly full; the history stays as it is. |
| IODevices.IODevice.ReadChunks | include/server/IODevice.h:74-84 | The one or two chunks continue the ring by exactly the bytes taken from the source; a source that gives what it is asked for fills the ring, or an empty ring up to the end of the array. |
| IODevices.DeliveredIff | include/server/IODevice.h:69-92 | For every series of reads with arbitrary short refills the ring holds the last bytes taken, and bytes received followed by the ring are the bytes taken if and only if no call meets an exactly full ring with stale bytes that differ from the right ones. |
| IODevices.IODevice.Delivered | include/server/IODevice.h:69-92 | The same of the device: what its callers found in their buffers, followed by its ring, is what it took from the source if and only if no call in its history spoilt. |
| IODevices.FullRefillSpoils | include/server/IODevice.h:48-52 | A device with a source of 1024 bytes or more: the first read leaves the caller's buffer as it was, and the byte is gone. |
| LogStreams.LogStreamBuf.Write | include/server/logging/LogStream.h:10-26 | The text is the old text and the new, clipped two characters before the end of the memory; the write always claims success. |
| LogMessages.LogMessage.Destroy | include/server/logging/LogMessage.h:87-145 | Unflushed data reaches the logger once, in an object that takes the data over: its text with a line end and, for FATAL, the stack trace, the whole cut off at 2998 characters; moved-from and flushed objects hand over nothing. |
| LogMessages.LogMessage.MoveFrom | include/server/logging/LogMessage.h:64-72 | The data changes hands and the source owns nothing. |
| MessageProtocol.HandedOnce | include/server/logging/LogMessage.h:64-145 | Over every sequence of constructions, moves, assignments and destructions no message is handed over twice, none has two owners, and exactly those handed over are marked as flushed. |
| MessageProtocol.HandedOrLost | include/server/logging/LogMessage.h:64-145 | Once nobody owns an unflushed message, every message was handed over or is lost, and not both. |
| MessageProtocol.LostIff | include/server/logging/LogMessage.h:73-92 | Over a whole run, a message has no owner and was never handed over if and only if some step destroyed its owner before a logger was set, or move-assigned over its owner, while it was unflushed. |
| MessageOwners.Owners.Destroy | include/server/logging/LogMessage.h:87-145 | The destructor of a LogMessage object is the Destroy step of the ownership protocol: if the object owns unflushed data and a logger is set, exactly its level and its text with line end and, for FATAL, stack trace, cut off at 2998 characters, are logged, and its data moves to the object of the logger; nothing is logged otherwise. Always, what has been logged are the texts of the data handed over, in order. |
| MessageOwners.Owners.Assign | include/server/logging/LogMessage.h:73-86 | Move assignment between two LogMessage objects is the Assign step. |
| MessageOwners.Owners.Move | include/server/logging/LogMessage.h:64-72 | The move constructor is the Move step. |
| MessageOwners.Owners.Write | include/server/logging/LogMessage.h:98-98 | Writing to the stream of an object adds to the text of its own data, clipped, and to no other. |
| MessageOwners.FilesHoldHanded | include/server/logging/Logging.h:88-135 | From the objects to the files: where the flush thread waits with nothing buffered, the files of each sink hold the texts of all messages handed over, one after the other in order, and none twice; every message that was below 2998 characters before its destruction ends its line, and if all were, and none FATAL, the files are those messages, a line each. |
| LoggerProtocol.OrderAndCompleteness | include/server/logging/Logging.h:88-135 | Over every interleaving each sink has a prefix of the buffering order, sinks are at most one message apart, delivered followed by undelivered is everything buffered, and the backup vector is empty at every swap. |
| LoggerProtocol.FatalCut | include/server/logging/Logging.h:120-132 | After an abort every sink has exactly the messages up to and including the first FATAL one, and both vectors are empty. |
| LoggerProtocol.FlusherProgress | include/server/logging/Logging.h:104-135 | While the logger runs, the flush thread has no step if and only if everything is delivered. |
| Loggers.Logger.Flush | include/server/logging/Logging.h:104-135 | Under any schedule of loggers, where the nested loop waits all messages of the schedule were logged and every file sink has all messages; where it has aborted, those scheduled until then were logged, every sink has exactly the messages up to the first FATAL one, and both vectors are empty. |
| LogFiles.LogFile.Flush | include/server/logging/LogFile.h:87-96 | The files hold the rotation of all messages flushed, this one last; a file is closed exactly when it exceeded the limit before this message. |
| LogFiles.RotationHolds | include/server/logging/LogFile.h:87-133 | The rotation of any message series closes a file exactly by its first message beyond the limit, and keeps all messages in order. |
| LogFiles.RotationBounds | include/server/logging/LogFile.h:87-133 | k files hold at least (k - 1) * (limit + 1) bytes, and no file exceeds the limit by more than the longest message. |
| LogFiles.RotationUnique | include/server/logging/LogFile.h:89-93 | The rotation rule determines the split completely: files that keep it are the rotation of their messages. |
| LogFiles.BytesKept | include/server/logging/LogFile.h:87-96 | The contents of the files one after the other are the bytes of the messages. |
| LogPipeline.EndToEnd | include/server/logging/Logging.h:88-135 | At every moment of every interleaving the rotation of what a sink has received holds the bytes of a prefix of the messages logged, in order, k files at least (k - 1) * (limit + 1) bytes, no file more than limit + 2998. |
| LogPipeline.FilesEndToEnd | include/server/logging/Logging.h:88-135 | The same of the log file objects of a logger object. |
| LogPipeline.FilesComplete | include/server/logging/Logging.h:104-135 | Where the flush thread waits with nothing buffered the files of each sink hold all messages logged, and where it has aborted those up to the first FATAL one. |

## Left out

- NeverStrandsIff: there is one handler thread; a close is one step, from the read that meets the end of the stream to the erased entry.
- AgreementIff: one dispatcher without slaves, `RemoveHandler` is not called, the accept call itself never returns a descriptor in use, and a table comes back as it was handed out.
- DeliveredIff: `ReadData` returns 0 to the number of bytes asked for; an error result is not modelled.
- UnservedIff: writes that take nothing or fail are left to `SendProtocol`; an event is reported and handled in one step.
- NotificationCenter: its class closes descriptors politely; what other closes do is `NeverDanglesIff` and `CloseStrands`, on the protocol. From an access to an erased entry on the machine stops.
- Data races as such: single accesses to a flag, a status entry or a map are atomic here.
- The counters are unbounded integers; the widths of `int`, `size_t` and `uint64_t` are not reached.
- Waiting and notifying of the flush thread: it is the only waiter, and a waiting flush thread swaps as soon as a message is buffered.
- `Monitor`, `Adjust`, `GetThredShold`, `GetCPUStats` and `Timer.h`: they depend on `/proc/stat` and the clock, and `Monitor` returns at once in the configuration that starts it.
- Slave dispatchers, `DispatchToSlave` and `Dispatcher::Shutdown`.
- `IODevice::SkipSome` and `Seek`, which move the head without the size and do not keep the ring's invariant, the overloads that return vectors, and `File.h`.
- `~Logger`, timed waiting, sinks other than files, and sinks added after the first message.
- Header text of log messages (time, thread, place), stack traces and log file names; every rotation opens a fresh file.
- `TcpServer.h`, `TcpSocket.h`, `Address.h`, `AcceptHandler.h`, `SysLog.h`: socket plumbing and single-branch dispatch.
- Errors of the log file (`LogFile::Flush` throws when a write fails).
- Futures and bound callables: a task is an identifier.
