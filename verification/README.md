# The CAN stack of a robot, proved

This project models the parts of the robot's CAN stack that carry state and protocol, and proves
what callers rely on: transfers to drives over SDO, the hand-off between the read thread and a
blocked caller, interpolated trajectories, the thread pool behind parallel commands, the CiA 402
state machine, the transmit queue, PDO reconfiguration, acceptance filters, the mapping of joints
to devices, and the emulated controller.

Code that changes state is modelled as classes and methods whose contracts give the whole new state;
the theorems are lemmas about the functions and step systems in those contracts. What the software
does not control is a parameter or a nondeterministic step: the answers of a drive, the outcome of a
write or of a driver call, the interleaving of threads, the time at which a timeout fires, the length
of a control tick.

| file | what it models |
|---|---|
| `Bytes.dfy`, `Wrappers.dfy` | bytes, little-endian words, the 8-byte payload of a frame; optional values |
| `SdoClient.dfy`, `SdoTransfers.dfy` | the SDO client against a conforming drive, whose replies may go unheard, and an arbitrary one |
| `ThreadPool.dfy` | workers, pushes and `stop(true)` of the thread pool, one step at a time |
| `StateObserver.dfy` | the timed semaphore and the observer, one step at a time |
| `InterpolatedPosition.dfy`, `Trajectory.dfy` | the PT/PVT buffer, its records, and whole trajectories |
| `DriveStatusMachine.dfy` | the controller side of a CiA 402 drive |
| `TransmitQueue.dfy` | the queue between producers of CAN messages and the bus |
| `PdoProtocol.dfy` | reconfiguration of a PDO by writes that may fail |
| `AcceptanceFilter.dfy` | the code/mask filter of the PEAK driver |
| `FilterManager.dfy` | the ranges of ids for the Hico driver |
| `FutureTask.dfy`, `DeviceMapper.dfy` | deferred calls, sequential or parallel, and the joint mapping |
| `EmulatedControlboard.dfy` | joints that move between ticks, in real arithmetic |

Results that limit what one may expect of the code, each with a concrete run or input and with the
exact condition under which the code does meet the expectation:

- A transfer to a drive that conforms and answers in time may fail: a reply that arrives after the
  request was sent and before the await is registered notifies nobody. Transfers succeed exactly when
  every reply is heard (`SdoTransfers.RoundTrip`); a download that returns false may have been stored
  (`SdoTransfers.ConfirmationIsMissed`, `SdoTransfers.DownloadIsStored`).
- A string of four characters or less cannot be read from a drive that indicates its size: the room of
  100 bytes is taken for the size expected (`SdoTransfers.ShortStringIsNotRead`,
  `SdoTransfers.StringRoundTrip`).
- An upload need not return: a peer that sends empty segments, none of them the last, keeps it asking
  for ever (`SdoTransfers.EndlessUpload`). It returns exactly when some reply is not a continuing
  segment (`SdoTransfers.UploadReturnsIff`). Downloads always end.
- A segmented upload tests the room of its caller against the announced size only. From a conforming
  drive it stays within the room unless the drive announces no size, sends segments and delivers more
  (`SdoTransfers.UploadStaysInRoom`).
- A request to a drive that obeys and answers in time may fail: a report that arrives after the state
  was looked at and before the await is registered notifies nobody (`DriveStatusMachine.ReportIsMissed`).
  Requests succeed exactly when no report falls into that gap (`DriveStatusMachine.Machine.RequestState`).
- The reset of a fault whose report arrives before the command is stored leaves the reset stored, not
  the command of the state reached; every other request leaves the stored words coherent
  (`DriveStatusMachine.Machine.RequestTransition`).
- A task queued when `stop(true)` is announced is thrown away, where the comment on `stop` says that
  all functions in the queue are run, exactly when every worker has just failed to pop and is about to
  read isDone (`ThreadPool.StopRunsWhatIsQueued`). That takes a pool of one thread and a push that
  overlaps the stop (`ThreadPool.OverlappingPushCanBeDropped`, `ThreadPool.TwoThreadsDropNothing`,
  `ThreadPool.StopWaitsForAll`).
- An await that times out may find its buffer changed (`StateObserver.TimedOutBufferMayChange`);
  `StateObserver.BufferAfterAwait` says when it has.
- A drive that enters a fault reaction with its other state bits unchanged is not noticed, and the
  stored controlword goes on commanding the old state (`DriveStatusMachine.FaultReactionGoesUnnoticed`);
  `DriveStatusMachine.UpdateKeepsCoherence` gives the exact condition.
- A call that starts with exactly one PVT point left emits a record without look-ahead, and no other
  call does (`Trajectory.StarvedRun`, `Trajectory.BatchingIsInvisible`). The output is that of a single
  pass exactly when each such record is that of the last point or its velocity encodes to zero
  (`Trajectory.SinglePassIff`).
- A negative velocity is sent wrongly unless it rounds to an integer, or to a half below minus one: the
  encoding loses the sign of the fraction (`InterpolatedPosition.NegativeVelocityIsLost`,
  `InterpolatedPosition.FixedPointRoundTrip`).
- An acceptance filter over ids with a common bit above bit 6 passes no message at all
  (`AcceptanceFilter.ListedPass`); and ids that are not listed may pass (`AcceptanceFilter.StrangerPasses`,
  `AcceptanceFilter.PassesExactly`).
- The Hico filters are programmed for runs of two ids or more only. An id that stands alone is not
  admitted, and if it is the first, or ranges are off, programming reads out of bounds
  (`FilterManager.ProgramsExactly`, `FilterManager.SetFilters`).
- Calls that give different values to one axis may not be dispatched in parallel, all others may
  (`FutureTask.HarmfulIsARace`, `FutureTask.RepeatedAxisIsARace`, `FutureTask.ParallelIsSequential`).
- A PDO configuration of more than 255 mapped objects never succeeds: the subindex wraps to the count
  (`PdoProtocol.PlanIsTyped`). An illegal SYNC start value on an RPDO is found only after the object has
  been disabled; it stays so (`PdoProtocol.LateRefusal`).
- An empty string is stored by an expedited download as four zero bytes (`SdoTransfers.DownloadIsStored`).
- The bound check of the emulated board lets the index through that equals the number of joints
  (`EmulatedControlboard.Board.Stop`).

## Model

| member | source | states |
|---|---|---|
| `SdoClient.Client.PerformTransfer` | libraries/CanOpenNodeLib/SdoClient.cpp:334-360 | one request goes out and one outcome is recorded; true exactly for a reply that is heard and not an abort, which is then the response |
| `SdoClient.Client.DownloadInternal` | libraries/CanOpenNodeLib/SdoClient.cpp:206-313 | requests, outcome and peer afterwards are those of the download plan cut at the first frame that is not acknowledged; it ends against every peer |
| `SdoClient.Client.DownloadSegments` | libraries/CanOpenNodeLib/SdoClient.cpp:260-310 | the same for everything after the first frame, by the loop over segments |
| `SdoClient.Client.UploadInternal` | libraries/CanOpenNodeLib/SdoClient.cpp:109-204 | requests, bytes written and verdict of an upload into a given room, expedited or segmented, of which any number of turns of the loop is watched: it has returned true or false, or is still asking |
| `SdoClient.Client.UploadSegments` | libraries/CanOpenNodeLib/SdoClient.cpp:163-201 | the same for the loop that asks for segments until one is marked last or not acceptable |
| `SdoClient.UnpackPack` | libraries/CanOpenNodeLib/SdoClient.cpp:265-307 | toggle, payload length, last mark and payload can be read back from a segment frame |
| `SdoTransfers.SegmentsAreTheSegmentation` | libraries/CanOpenNodeLib/SdoClient.cpp:260-310 | the client's segments are the one and only segmentation of the data that the protocol allows, of ceil(n/7) frames |
| `SdoTransfers.SegmentationIsUnique` | libraries/CanOpenNodeLib/SdoClient.cpp:260-310 | the same from any segment on: full segments, alternating toggle, one last mark, zero padding, payloads in order leave no choice |
| `SdoTransfers.ExchangeWithAnyone` | libraries/CanOpenNodeLib/SdoClient.cpp:239-313 | whatever the peer answers, from any frame of any plan on: frames in order, none after an unacknowledged one |
| `SdoTransfers.DownloadWithAnyone` | libraries/CanOpenNodeLib/SdoClient.cpp:206-313 | against every answer sequence: the frames sent are a prefix of the plan, at most 1 + ceil(n/7); true exactly when the whole plan was acknowledged, frame by frame |
| `SdoTransfers.FirstFrameBytes` | libraries/CanOpenNodeLib/SdoClient.cpp:206-258 | byte by byte, the first frame of a download: command, address, and the data with their padding or their size |
| `SdoTransfers.AcknowledgedBytes` | libraries/CanOpenNodeLib/SdoClient.cpp:226-305 | byte by byte, the answers on which a download goes on: specifier 3 and the address of its entry, then specifier 1 and the toggle bit of the segment |
| `SdoTransfers.CollectWithAnyone` | libraries/CanOpenNodeLib/SdoClient.cpp:163-201 | against every endless stream of answers and for any number of turns: toggles of requests and accepted replies alternate, success means that the final reply and no other is marked last, the bytes written are the payloads accepted, in order, and as many as those carry |
| `SdoTransfers.SegmentBytes` | libraries/CanOpenNodeLib/SdoClient.cpp:163-198 | byte by byte, the request for a segment, and the replies taken as the segment, with its payload, or as the last one |
| `SdoTransfers.OpeningBytes` | libraries/CanOpenNodeLib/SdoClient.cpp:109-132 | byte by byte, the request that opens an upload, which ends with false after a reply of another specifier or for another entry |
| `SdoTransfers.UploadReturnsIff` | libraries/CanOpenNodeLib/SdoClient.cpp:109-204 | an upload from an arbitrary peer returns if and only if the peer does not open a segmented transfer, or some later reply is not a continuing segment with the right toggle bit |
| `SdoTransfers.EndlessUpload` | libraries/CanOpenNodeLib/SdoClient.cpp:167-198 | a peer that sends empty segments, never the last one, keeps the upload asking for ever, without a byte of data |
| `SdoTransfers.CollectSettles` | libraries/CanOpenNodeLib/SdoClient.cpp:163-201 | more turns change nothing once an upload has returned |
| `SdoTransfers.UploadStaysInRoom` | libraries/CanOpenNodeLib/SdoClient.cpp:150-201 | from a conforming drive, the bytes written stay within the room of the caller if and only if the drive indicates the size, answers in one frame, or delivers no more before the first reply that is not heard; when all are heard it delivers all it stores |
| `SdoTransfers.SegmentsAreStored` | libraries/CanOpenNodeLib/SdoClient.cpp:260-310 | a conforming drive that is half way through takes the remaining segments, up to and with the first one whose reply is not heard |
| `SdoTransfers.DownloadIsStored` | libraries/CanOpenNodeLib/SdoClient.cpp:206-313 | a download to a conforming drive succeeds if and only if every reply to its frames is heard; the drive then holds the bytes given, and it does too when only the last reply is not heard, while an earlier one leaves its entries as they were; only the empty string becomes four zero bytes |
| `SdoTransfers.ServeInitiate` | libraries/CanOpenNodeLib/SdoClient.cpp:212-260 | the first frame of a segmented download indicates the size, so that the drive knows how much is to come |
| `SdoTransfers.ConfirmationIsMissed` | libraries/CanOpenNodeLib/SdoClient.cpp:334-360 | a download that returns false although the drive has stored the data: its confirmation comes before the await has registered |
| `SdoTransfers.CollectFromDrive` | libraries/CanOpenNodeLib/SdoClient.cpp:163-201 | a conforming drive hands over all it has, in whatever segment sizes it chooses, within as many turns as it has bytes, if and only if all its replies are heard; otherwise what came before the first that is not |
| `SdoTransfers.UploadIsRead` | libraries/CanOpenNodeLib/SdoClient.cpp:109-204 | an upload into room for exactly the stored bytes returns them if and only if every reply is heard, else false and a prefix of them |
| `SdoTransfers.ExpeditedIntoRoom` | libraries/CanOpenNodeLib/SdoClient.cpp:134-146 | for room of any size and a heard reply in one frame: with the size indicated, true exactly if the room is for that many bytes, and then these bytes, else false and no byte; without, true and the front of the frame |
| `SdoTransfers.SegmentsIntoRoom` | libraries/CanOpenNodeLib/SdoClient.cpp:147-204 | for room of any size and a reply that opens segments: false and no byte if it is not heard or announces more than there is room for; else true exactly if every segment is heard, with the stored bytes, and otherwise those before the first that is not |
| `SdoTransfers.RoundTrip` | libraries/CanOpenNodeLib/SdoClient.cpp:109-313 | for every non-empty string, conforming drive, mode and upload style: download then upload succeed if and only if the replies to all frames of both are heard, and then return the same bytes and change no other entry |
| `SdoTransfers.StringRoundTrip` | libraries/CanOpenNodeLib/SdoClient.cpp:315-331 | a string written and read back through the overloads for strings: both succeed if and only if every reply is heard and the drive does not indicate the size of a string of four characters or less, nor announces more than 100; the text is the same if and only if it contains no terminator |
| `SdoTransfers.ShortStringIsNotRead` | libraries/CanOpenNodeLib/SdoClient.cpp:134-146 | a drive that stores a string of one character and indicates its size: reading it back fails |
| `SdoTransfers.UploadString` | libraries/CanOpenNodeLib/SdoClient.cpp:315-326 | an upload into room for 100 bytes, of which the text up to the terminator is kept; a failure leaves the string of the caller |
| `SdoTransfers.WriteThenRead` | libraries/CanOpenNodeLib/SdoClient.cpp:109-313 | the same through the client's own methods |
| `ThreadPool.InvKept` | libraries/YarpDeviceMapperLib/ctpl/ctpl_stl.h:142-234 | every step of a worker, a push, a growing pool or stop(true) keeps the invariant: tasks conserved, one mutex holder, stop in order, promised tasks attended |
| `ThreadPool.NoLostWakeUp` | libraries/YarpDeviceMapperLib/ctpl/ctpl_stl.h:172-234 | after any run with a live worker, a queued task whose push has returned has a worker that will look at the queue again before it blocks or exits |
| `ThreadPool.AttentionLasts` | libraries/YarpDeviceMapperLib/ctpl/ctpl_stl.h:209-234 | a worker that will look at the queue keeps that intent until it has found the queue empty |
| `ThreadPool.NotificationIsHeard` | libraries/YarpDeviceMapperLib/ctpl/ctpl_stl.h:172-198 | a notification finds somebody attentive or makes a waiter so |
| `ThreadPool.AtMostOnce` | libraries/YarpDeviceMapperLib/ctpl/ctpl_stl.h:44-69 | after any run, no task has run twice, or has run and is still queued, and none runs that was not pushed |
| `ThreadPool.FirstInFirstOut` | libraries/YarpDeviceMapperLib/ctpl/ctpl_stl.h:44-69 | after any run the queue is increasing, without gaps up to the latest push, and every task that was taken, run or thrown away is smaller than all that are queued |
| `ThreadPool.LoneWorkerKeepsOrder` | libraries/YarpDeviceMapperLib/ctpl/ctpl_stl.h:209-234 | with one worker the tasks that ran, the one in hand, those thrown away and the queue are, in this order, all tasks in the order of their pushes |
| `ThreadPool.StopWaitsForAll` | libraries/YarpDeviceMapperLib/ctpl/ctpl_stl.h:142-170 | once stop(true) has joined, every task whose push had returned before the stop was announced has run exactly once, even with a single worker that was about to give up |
| `ThreadPool.StopRunsWhatIsQueued` | libraries/YarpDeviceMapperLib/ctpl/ctpl_stl.h:142-234 | a task in the queue when stop(true) sets isDone, its push returned or not, has run once at the join if and only if some worker was not about to read isDone after a failed pop; otherwise it never runs |
| `ThreadPool.StopRunsAll` | libraries/YarpDeviceMapperLib/ctpl/ctpl_stl.h:142-234 | under that condition every task ever accepted has run exactly once |
| `ThreadPool.TwoThreadsDropNothing` | libraries/YarpDeviceMapperLib/ctpl/ctpl_stl.h:142-234 | a pool of two threads or more runs everything that was pushed before the stop was announced |
| `ThreadPool.PromiseIsKept` | libraries/YarpDeviceMapperLib/ctpl/ctpl_stl.h:142-234 | when every worker is blocked or gone, a promised task can only have run |
| `ThreadPool.DoneAtRest` | libraries/YarpDeviceMapperLib/ctpl/ctpl_stl.h:142-234 | a pool at rest has run every accepted task exactly once, or, after a stop, every task promised before it |
| `ThreadPool.RestIsQuiet` | libraries/YarpDeviceMapperLib/ctpl/ctpl_stl.h:142-234 | at rest no thread is on the move and no notification is due: nothing is deadlocked on the mutex |
| `ThreadPool.BoundedWork` | libraries/YarpDeviceMapperLib/ctpl/ctpl_stl.h:142-234 | no schedule keeps the pool busy for longer than its rank, so it comes to rest |
| `ThreadPool.OverlappingPushCanBeDropped` | libraries/YarpDeviceMapperLib/ctpl/ctpl_stl.h:142-198 | the remaining case is reached: a run of one worker in which a task queued before the stop is thrown away |
| `StateObserver.SemaphoreConserves` | libraries/StateObserverLib/StateObserver.cpp:23-55 | for any threads and interleaving: max(0,-count) + wakeups is the number of blocked waiters, posts are successful waits plus wakeups plus max(0,count), and every wait is blocked, successful or timed out |
| `StateObserver.PostIsNotMissed` | libraries/StateObserverLib/StateObserver.cpp:23-55 | a blocked thread can wake up if and only if there was a post that no wait has consumed, and time out if and only if there was none; waits and posts are never held up |
| `StateObserver.InvKept` | libraries/StateObserverLib/StateObserver.cpp:79-136 | every step of await, notify and interrupt keeps the invariant of the hand-off |
| `StateObserver.SafeSteps` | libraries/StateObserverLib/StateObserver.cpp:79-136 | in every interleaving a payload is stored only between registration and deregistration of an await, and only a living semaphore is posted |
| `StateObserver.BufferIsPrivate` | libraries/StateObserverLib/StateObserver.cpp:79-125 | nobody but its own caller, and notifiers inside its window, changes a caller's buffer |
| `StateObserver.AwaitIsHonest` | libraries/StateObserverLib/StateObserver.cpp:79-136 | true means that something was notified or interrupted in the window of the call; the buffer holds its initial contents overlaid with what was notified there, the latest last |
| `StateObserver.LastPayloadWins` | libraries/StateObserverLib/StateObserver.cpp:178-181 | when every payload fills the buffer, the buffer holds the last one, whatever was notified without a payload and whether or not an interrupt followed; without any payload it is unchanged |
| `StateObserver.BufferAfterAwait` | libraries/StateObserverLib/StateObserver.cpp:79-125 | a buffer is as it was after an await, timed out or not, if and only if nothing was notified in its window, or the last payload there equals what it held |
| `StateObserver.NotifiedCallerWakes` | libraries/StateObserverLib/StateObserver.cpp:79-125 | a caller that was notified while blocked can no longer time out |
| `StateObserver.BlockedCallerIsReached` | libraries/StateObserverLib/StateObserver.cpp:106-136 | a notification or an interrupt that begins while a caller is blocked: once the notifier is through, and the caller still blocked, what it brought is in the window of the call, and the caller can wake up and cannot time out |
| `StateObserver.NotifiersGetOn` | libraries/StateObserverLib/StateObserver.cpp:106-136 | a notifier that has set out is never stuck on the registry mutex |
| `StateObserver.InterruptedAwaitLeaves` | libraries/StateObserverLib/StateObserver.cpp:79-86 | after an interrupt, in every interleaving, an await that has not yet looked at `active` leaves at once with false, its buffer as it was |
| `StateObserver.CallerFallsAsleep` | libraries/StateObserverLib/StateObserver.cpp:79-103 | a run that takes a caller from its call to being blocked with its buffer registered |
| `StateObserver.TimedOutBufferMayChange` | libraries/StateObserverLib/StateObserver.cpp:79-125 | a run in which await returns false and its buffer has changed |
| `InterpolatedPosition.FixedPointRoundTrip` | libraries/CanBusSharerLib/CanUtils.hpp:48-71 | decoding an encoded value is off by at most 1/512 if and only if its integer part fits 16 bits, its fraction does not round up to one, and, if it is negative, it rounds to an integer, or to a half below minus one |
| `InterpolatedPosition.NegativeVelocityIsLost` | libraries/CanBusSharerLib/CanUtils.hpp:48-71 | -1.25 is read back as -1.75 |
| `InterpolatedPosition.PtFields` | libraries/YarpPlugins/TechnosoftIpos/InterpolatedPositionBuffer.cpp:195-208 | position, 16-bit time and counter mod 128 can be read back from a PT record |
| `InterpolatedPosition.PvtFields` | libraries/YarpPlugins/TechnosoftIpos/InterpolatedPositionBuffer.cpp:230-263 | 24-bit position exactly when it fits, 9-bit time, counter mod 128 and the encoded velocity, zero without look-ahead, can be read back from a PVT record |
| `InterpolatedPosition.RecordIsLossless` | libraries/YarpPlugins/TechnosoftIpos/InterpolatedPositionBuffer.cpp:195-263 | a record gives position and time back exactly when they fit their fields, the counter always mod 128, and the velocity within 1/512 if and only if it can be encoded |
| `InterpolatedPosition.RecordVelocity` | libraries/YarpPlugins/TechnosoftIpos/InterpolatedPositionBuffer.cpp:164-179 | the velocity of a record with look-ahead is within 1/512 of the average of the two distances over their durations, in synchronous operation the fixed number of samples times the sampling period, else the difference of times, if and only if that can be encoded |
| `InterpolatedPosition.LineVelocity` | libraries/YarpPlugins/TechnosoftIpos/InterpolatedPositionBuffer.cpp:164-179 | points on a line in time are sent with its slope, in both modes |
| `InterpolatedPosition.BatchFillsRoom` | libraries/YarpPlugins/TechnosoftIpos/InterpolatedPositionBuffer.cpp:76-92 | a batch fits the room that the drive has, all of its 9 or 7 records or all but 4, and is smaller only because the queue ends or keeps one PVT point for the look-ahead |
| `InterpolatedPosition.Compose` | libraries/YarpPlugins/TechnosoftIpos/InterpolatedPositionBuffer.cpp:64-111 | the state after i points and then j more is that after i + j, so an interruption does not matter |
| `InterpolatedPosition.InterpolatedPositionBuffer.SetInitial` | libraries/YarpPlugins/TechnosoftIpos/InterpolatedPositionBuffer.cpp:37-43 | the dummy point before the trajectory |
| `InterpolatedPosition.InterpolatedPositionBuffer.AddSetpoint` | libraries/YarpPlugins/TechnosoftIpos/InterpolatedPositionBuffer.cpp:58-62 | the point joins the end of the queue and nothing else changes |
| `InterpolatedPosition.InterpolatedPositionBuffer.ClearQueue` | libraries/YarpPlugins/TechnosoftIpos/InterpolatedPositionBuffer.cpp:132-136 | the queue is emptied; previous point, initial time, counter and sample count stay |
| `InterpolatedPosition.InterpolatedPositionBuffer.GetSampledTime` | libraries/YarpPlugins/TechnosoftIpos/InterpolatedPositionBuffer.cpp:148-162 | the window is the difference of quantised times and the sample count moves on to the quantised time |
| `InterpolatedPosition.InterpolatedPositionBuffer.PopBatch` | libraries/YarpPlugins/TechnosoftIpos/InterpolatedPositionBuffer.cpp:64-111 | batch and queue afterwards are those of the specification by places; never a pop from an empty queue |
| `Trajectory.PositionDirect.SetPositionRaw` | libraries/YarpPlugins/TechnosoftIpos/IPositionDirectRawImpl.cpp:11-45 | with a buffer the point is queued, and nothing is popped before the queue holds more points than a buffer and the offset; then a whole buffer of records goes out, all of them written even if some are refused, and true means that none was; without a buffer the reference becomes the target of the next synchronous command |
| `Trajectory.BatchingIsInvisible` | libraries/YarpPlugins/TechnosoftIpos/InterpolatedPositionBuffer.cpp:64-124 | over any interleaving of adds and pops from the gate on, the concatenated batches are the single pass over all points in order, save for records at blind places; every PVT record elsewhere had its look-ahead, that is, a next point |
| `Trajectory.NeverBlind` | libraries/YarpPlugins/TechnosoftIpos/InterpolatedPositionBuffer.cpp:64-124 | there are blind places if and only if some call starts with one last PVT point |
| `Trajectory.BlindRecord` | libraries/YarpPlugins/TechnosoftIpos/InterpolatedPositionBuffer.cpp:89-102 | the record made without look-ahead is that of the single pass if and only if the point is the last of all, or the velocity it should carry encodes to zero |
| `Trajectory.SinglePassIff` | libraries/YarpPlugins/TechnosoftIpos/InterpolatedPositionBuffer.cpp:64-124 | over any run from the gate on, the whole output is that of the single pass if and only if this holds at every blind place |
| `Trajectory.StarvedRun` | libraries/YarpPlugins/TechnosoftIpos/InterpolatedPositionBuffer.cpp:64-124 | a run whose second call finds one PVT point, and emits a record of zero velocity in the middle of a steady motion |
| `Trajectory.RecordsOfRun` | libraries/YarpPlugins/TechnosoftIpos/InterpolatedPositionBuffer.cpp:64-124 | over any run from the gate on, record i has the position of point i exactly when that fits, in synchronous operation the fixed time, and no velocity at a blind place |
| `InterpolatedPosition.AmendedStart` | libraries/YarpPlugins/TechnosoftIpos/InterpolatedPositionBuffer.cpp:70-79 | before the first batch the dummy point is placed one interval before the first point, and nothing else changes |
| `Trajectory.VelocityOfRun` | libraries/YarpPlugins/TechnosoftIpos/InterpolatedPositionBuffer.cpp:64-179 | and elsewhere the average of the velocities before and after its point, the amended initial point included, within 1/512 if and only if that can be encoded |
| `Trajectory.LineOfRun` | libraries/YarpPlugins/TechnosoftIpos/InterpolatedPositionBuffer.cpp:64-179 | a motion along a line, however batched, is sent with its velocity in every record with look-ahead |
| `Trajectory.PtNeverStarves` | libraries/YarpPlugins/TechnosoftIpos/InterpolatedPositionBuffer.cpp:64-111 | in PT mode no call does |
| `Trajectory.OutputIsOnePass` | libraries/YarpPlugins/TechnosoftIpos/InterpolatedPositionBuffer.cpp:64-124 | without such calls every record emitted is the one a single pass over all points makes at its place |
| `Trajectory.RunFromGate` | libraries/YarpPlugins/TechnosoftIpos/InterpolatedPositionBuffer.cpp:64-124 | the same for runs that begin with the dummy point still in place |
| `Trajectory.RunInsidePass` | libraries/YarpPlugins/TechnosoftIpos/InterpolatedPositionBuffer.cpp:64-111 | the same for runs that begin in the middle of a pass |
| `Trajectory.WindowsTelescope` | libraries/YarpPlugins/TechnosoftIpos/InterpolatedPositionBuffer.cpp:148-162 | as long as each window fits its field, the times of the records add up to the quantised time of the last point |
| `Trajectory.NoDrift` | libraries/YarpPlugins/TechnosoftIpos/InterpolatedPositionBuffer.cpp:148-162 | over any run in asynchronous mode the windows telescope after every point if and only if every segment fits its field |
| `Trajectory.ErrorStaysBelowOnePeriod` | libraries/YarpPlugins/TechnosoftIpos/InterpolatedPositionBuffer.cpp:148-162 | the first n records take as long as the first n points, to within one sampling period, for every n |
| `Trajectory.CounterSteps` | libraries/YarpPlugins/TechnosoftIpos/InterpolatedPositionBuffer.cpp:195-263 | the integrity counter steps by one, mod 128, from each record to the next across batches |
| `DriveStatusMachine.PathsAreShortest` | libraries/CanOpenNodeLib/DriveStatusMachine.cpp:109-141 | every listed path leads to its goal by the transition table and no shorter sequence of commands does; which pairs are listed |
| `DriveStatusMachine.StateTable` | libraries/CanOpenNodeLib/DriveStatusMachine.cpp:37-79 | for every 16-bit statusword, each state is recognised by exactly its bits, the others left open |
| `DriveStatusMachine.TransitionTable` | libraries/CanOpenNodeLib/DriveStatusMachine.cpp:109-124 | on the chain of four states a command leads one place up or any number down; apart from that there are the quick stop, the two ways out of it, and the reset of a fault |
| `DriveStatusMachine.CommandPattern` | libraries/CanOpenNodeLib/DriveStatusMachine.cpp:102-106 | the controlword that goes out has the bit pattern of its command and of no other, and keeps the other bits |
| `DriveStatusMachine.DestinationByCommand` | libraries/CanOpenNodeLib/DriveStatusMachine.cpp:109-124 | where a command leads does not depend on the state it is issued from |
| `DriveStatusMachine.CommandOfDestination` | libraries/CanOpenNodeLib/DriveStatusMachine.cpp:81-124 | the command of a transition is the one kept for the state it leads to, but for the reset of a fault |
| `DriveStatusMachine.UpdateKeepsCoherence` | libraries/CanOpenNodeLib/DriveStatusMachine.cpp:144-161 | a report keeps the stored command that of the reported state if and only if it is not the fault bit alone that toggles in a commandable state |
| `DriveStatusMachine.FaultReactionGoesUnnoticed` | libraries/CanOpenNodeLib/DriveStatusMachine.cpp:144-161 | the report that breaks it: operation enabled to fault reaction |
| `DriveStatusMachine.CoherentWordIsIdle` | libraries/CanOpenNodeLib/DriveStatusMachine.cpp:81-124 | sending a coherent stored word again fires no transition of the table |
| `DriveStatusMachine.CoherenceLasts` | libraries/CanOpenNodeLib/DriveStatusMachine.cpp:144-186 | over any run of reports without the fault bit and of writes that leave the command bits alone, the stored words stay coherent |
| `DriveStatusMachine.CoherentFromReset` | libraries/CanOpenNodeLib/DriveStatusMachine.cpp:144-186 | from reset, over any such run, re-sending the stored word fires no transition |
| `DriveStatusMachine.TransitionIsNoticed` | libraries/CanOpenNodeLib/DriveStatusMachine.cpp:109-161 | every transition of the table changes a status bit that is watched, so that it notifies who awaits it |
| `DriveStatusMachine.ReportUpdates` | libraries/CanOpenNodeLib/DriveStatusMachine.cpp:144-161 | whatever was stored, the report of a transition makes the stored words coherent |
| `DriveStatusMachine.Machine.Update` | libraries/CanOpenNodeLib/DriveStatusMachine.cpp:144-161 | the controlword takes over the command of the reported state when a watched bit changes, else it stays |
| `DriveStatusMachine.Machine.WriteControlword` | libraries/CanOpenNodeLib/DriveStatusMachine.cpp:176-186 | a sent word is stored over what reports made of the old one meanwhile; a refused one leaves the other bits alone |
| `DriveStatusMachine.Machine.AwaitState` | libraries/CanOpenNodeLib/DriveStatusMachine.cpp:237-245 | true means that the last look found the goal; an obedient drive with the report under way gets there, the stored words follow its report, and true is returned if and only if the report does not fall between the first look and the registration of the await |
| `DriveStatusMachine.Machine.RequestTransition` | libraries/CanOpenNodeLib/DriveStatusMachine.cpp:199-208 | with the drive free to change at any moment: at most one command, allowed by the table from the sampled state, other bits untouched; true means its destination was seen last; an obedient drive gets there, reported as true if and only if its report misses that gap; the stored words are coherent then if and only if the command is not the reset of a fault or the report comes after the command is stored |
| `DriveStatusMachine.Machine.RequestState` | libraries/CanOpenNodeLib/DriveStatusMachine.cpp:210-235 | the commands sent are a prefix of the listed path, each allowed from its sampled state, other bits untouched; true means the goal was seen last; an obedient drive is where the commands lead, the stored words are coherent once a command went out, and true is returned if and only if it is there already, or a path is listed and no report falls into the gap; otherwise the request stops after the first that does |
| `DriveStatusMachine.ReportIsMissed` | libraries/CanOpenNodeLib/DriveStatusMachine.cpp:210-245 | an obedient drive that answers in time, and a request that fails because the second report falls into the gap |
| `TransmitQueue.CanWriter.PrepareMessage` | libraries/YarpPlugins/CanBusControlboard/YarpCanSenderDelegate.cpp:9-29 | an accepted message joins the end of the queue with its first len bytes; a full queue refuses it and nothing changes; accepted = settled + queued still holds |
| `TransmitQueue.CanWriter.HandlePartialWrite` | libraries/YarpPlugins/CanBusControlboard/CanRxTxThreads.cpp:231-242 | the overlapping shift in place keeps exactly the messages that were not sent, in order |
| `TransmitQueue.CanWriter.Flush` | libraries/YarpPlugins/CanBusControlboard/CanRxTxThreads.cpp:148-212 | sent messages leave as written, an error drops the whole queue, the rest stays in order; accepted = settled + queued still holds |
| `TransmitQueue.CanWriter.Retire` | libraries/YarpPlugins/CanBusControlboard/CanRxTxThreads.cpp:205-211 | what was sent makes way for the rest |
| `TransmitQueue.FifoConservation` | libraries/YarpPlugins/CanBusControlboard/CanRxTxThreads.cpp:148-242 | over any interleaving of producers and flushes with any partial writes and errors: accepted messages are, in order, those written or dropped followed by the queue, which never exceeds its size |
| `TransmitQueue.NothingDropped` | libraries/YarpPlugins/CanBusControlboard/CanRxTxThreads.cpp:148-242 | without bus errors nothing is dropped |
| `PdoProtocol.RecordsAreDistinct` | libraries/CanOpenNodeLib/PdoProtocol.cpp:104-119 | up to 512 objects of either kind, no two share a communication or mapping record |
| `PdoProtocol.SmallRecords` | libraries/CanOpenNodeLib/PdoProtocol.cpp:104-119 | the n-th object has its communication record at 13FFh + n or 17FFh + n, and its mapping record at 15FFh + n or 19FFh + n |
| `PdoProtocol.PlanIsCareful` | libraries/CanOpenNodeLib/PdoProtocol.cpp:128-210 | the sequence of writes is careful at every prefix, and yields the object as requested when it runs to the end |
| `PdoProtocol.SlotsAreCareful` | libraries/CanOpenNodeLib/PdoProtocol.cpp:176-200 | the same for the mapped objects from any one on, for lists of any length |
| `PdoProtocol.EventsAreCareful` | libraries/CanOpenNodeLib/PdoProtocol.cpp:128-210 | whichever write of a careful run fails, and whether or not it took effect, every state an observer sees is careful |
| `PdoProtocol.PlanIsTyped` | libraries/CanOpenNodeLib/PdoProtocol.cpp:176-200 | every write has the size of the object it addresses if and only if at most 255 objects are mapped |
| `PdoProtocol.RejectedPlanIsTyped` | libraries/CanOpenNodeLib/PdoProtocol.cpp:128-168 | an illegal RTR bit is found before any write, an illegal SYNC start value after writes that all have the right size |
| `PdoProtocol.LateRefusal` | libraries/CanOpenNodeLib/PdoProtocol.cpp:162-168 | a SYNC start value for an RPDO leaves the object disabled, and as it was if and only if it was disabled before and had the options written until then |
| `PdoProtocol.RequestedSettings` | libraries/CanOpenNodeLib/PdoProtocol.cpp:128-210 | what success means, setting by setting: each that was asked for has its value, every other is as it was, COB-ID bits included |
| `PdoProtocol.Protocol.Configure` | libraries/CanOpenNodeLib/PdoProtocol.cpp:98-213 | at every moment an enabled PDO has its untouched original settings or all requested ones; slots are written only while it is disabled with count 0; other COB-ID bits are kept; true if and only if options are legal, the mapping can be counted and no transfer fails; what an illegal option leaves behind |
| `PdoProtocol.Protocol.WriteSettings` | libraries/CanOpenNodeLib/PdoProtocol.cpp:128-212 | the writes asked for are those of the plan, cut at the first failure |
| `PdoProtocol.Protocol.WriteOptions` | libraries/CanOpenNodeLib/PdoProtocol.cpp:147-210 | the same for all writes but the first |
| `PdoProtocol.Protocol.WriteMapping` | libraries/CanOpenNodeLib/PdoProtocol.cpp:176-200 | the same for count, mapped objects in order, and count again |
| `AcceptanceFilter.ComputeAcceptanceCodeAndMask` | libraries/YarpPlugins/CanBusPeak/CanBusPeak.cpp:74-111 | visiting the ids in any order, the code has exactly the bits that all ids have and the mask exactly 0x780 and the bits on which two ids differ |
| `AcceptanceFilter.FilterIsUnique` | libraries/YarpPlugins/CanBusPeak/CanBusPeak.cpp:74-111 | the set of ids determines code and mask |
| `AcceptanceFilter.ListedPass` | libraries/YarpPlugins/CanBusPeak/CanBusPeak.cpp:74-111 | an 11-bit COB-ID that carries a listed id passes if and only if no bit above bit 6 is common to all ids; otherwise no message passes |
| `AcceptanceFilter.PassesExactly` | libraries/YarpPlugins/CanBusPeak/CanBusPeak.cpp:74-111 | an 11-bit COB-ID passes if and only if, besides, it agrees with a listed id on every bit outside the function code on which all listed ids agree |
| `AcceptanceFilter.SoundIff` | libraries/YarpPlugins/CanBusPeak/CanBusPeak.cpp:89-108 | the computed code is that of a node id if and only if no bit above bit 6 is common to all ids |
| `AcceptanceFilter.NodeIdsAreSound` | libraries/YarpPlugins/CanBusPeak/CanBusPeak.cpp:79-82 | one id of 7 bits is enough for that |
| `AcceptanceFilter.NoFilterIsTighter` | libraries/YarpPlugins/CanBusPeak/CanBusPeak.cpp:74-111 | a code/mask filter that admits every COB-ID of every listed id admits all that the computed one does |
| `AcceptanceFilter.StrangerPasses` | libraries/YarpPlugins/CanBusPeak/CanBusPeak.cpp:91-108 | an instance: with ids 1 and 2 listed, id 3 passes too |
| `AcceptanceFilter.NothingListed` | libraries/YarpPlugins/CanBusPeak/CanBusPeak.cpp:84-87 | with no id listed, exactly the messages without a node id pass |
| `AcceptanceFilter.CanBusPeak.CanIdAdd` | libraries/YarpPlugins/CanBusPeak/ICanBusImpl.cpp:61-87 | the programmed filter stays that of the listed ids; the id is listed exactly when true is returned, else nothing changes |
| `AcceptanceFilter.CanBusPeak.CanIdDelete` | libraries/YarpPlugins/CanBusPeak/ICanBusImpl.cpp:91-131 | likewise for a deleted id; id 0 clears the set and lets every message pass; a failure changes nothing |
| `FilterManager.AdjacentFind` | libraries/YarpPlugins/CanBusHico/FilterManager.cpp:21-27 | the first id not followed by the next number, in spite of 32-bit wrap-around |
| `FilterManager.RunsOf` | libraries/YarpPlugins/CanBusHico/FilterManager.cpp:178-196 | disjoint maximal runs of consecutive ids whose concatenation is the sorted set |
| `FilterManager.SinglesOf` | libraries/YarpPlugins/CanBusHico/FilterManager.cpp:197-204 | one filter per id when ranges are off |
| `FilterManager.BulkUpdate` | libraries/YarpPlugins/CanBusHico/FilterManager.cpp:174-240 | the filters to be set, whether the hardware has room for them, and what is programmed then |
| `FilterManager.SetFilters` | libraries/YarpPlugins/CanBusHico/FilterManager.cpp:217-232 | runs of two ids or more are programmed as ranges; a first sequence of one id is read past its end, a later one is passed over; true exactly if the driver has taken every such run |
| `FilterManager.BoundsAdmitExactly` | libraries/YarpPlugins/CanBusHico/FilterManager.cpp:178-196 | the bounds of the runs, taken as ranges, admit exactly the listed ids |
| `FilterManager.ProgramsExactly` | libraries/YarpPlugins/CanBusHico/FilterManager.cpp:151-232 | with ranges enabled and a driver that takes them, the programmed ranges admit exactly the listed ids if and only if no id stands alone; the source reads out of bounds exactly when the first one does |
| `FilterManager.ProgrammedAdmits` | libraries/YarpPlugins/CanBusHico/FilterManager.cpp:174-240 | whatever the driver refuses: true is reported exactly if it has taken every run of two ids or more, and an id is admitted exactly if it belongs to one that was taken |
| `FilterManager.NothingAfterRun` | libraries/YarpPlugins/CanBusHico/FilterManager.cpp:178-196 | the number after a run is not listed: runs are maximal |
| `FilterManager.RunsAreFewest` | libraries/YarpPlugins/CanBusHico/FilterManager.cpp:178-196 | no family of fewer intervals covers exactly the listed ids |
| `FilterManager.FitWhenPossible` | libraries/YarpPlugins/CanBusHico/FilterManager.cpp:174-213 | the filters fit into the hardware whenever some intervals that admit exactly the listed ids do |
| `FutureTask.DispatchSequentially` | libraries/YarpDeviceMapperLib/FutureTask.cpp:24-29 | all calls run in order, none is skipped, and the result is the conjunction of theirs |
| `FutureTask.RunNext` | libraries/YarpDeviceMapperLib/FutureTask.cpp:24-29 | one more command acts on its axis as those before it have left it, and the result is true if it and all of them succeed |
| `FutureTask.DispatchInParallel` | libraries/YarpDeviceMapperLib/FutureTask.cpp:43-54 | effect and conjunction of results for the order that the schedule of the threads gives |
| `FutureTask.ParallelIsSequential` | libraries/YarpDeviceMapperLib/FutureTask.cpp:24-54 | for every schedule, command and state the effect and the result are those of the sequential task if no two calls give different values to one axis |
| `FutureTask.HarmfulIsARace` | libraries/YarpDeviceMapperLib/FutureTask.cpp:43-54 | and only then: if two calls do, some schedule and some command tell the parallel task from the sequential one |
| `FutureTask.SameOnEveryAxis` | libraries/YarpDeviceMapperLib/FutureTask.cpp:24-54 | two orders that agree on every axis have the same effect and result |
| `FutureTask.MergePermutes` | libraries/YarpDeviceMapperLib/FutureTask.cpp:43-54 | for every schedule every command is issued exactly once |
| `FutureTask.RepeatedAxisIsARace` | libraries/YarpDeviceMapperLib/FutureTask.cpp:43-54 | an instance with commands that overwrite: the axis ends up with the value of the other call |
| `DeviceMapper.SlicesTile` | libraries/YarpDeviceMapperLib/DeviceMapper.cpp:77-111 | each joint is one axis of one registered device, at its offset |
| `DeviceMapper.AxesAreJoints` | libraries/YarpDeviceMapperLib/DeviceMapper.cpp:77-111 | each axis of each device is one joint: the mapping is a bijection |
| `DeviceMapper.LocateStays` | libraries/YarpDeviceMapperLib/DeviceMapper.cpp:90-96 | registering a device leaves the joints of the others where they were and appends its own |
| `DeviceMapper.DeviceMapper.RegisterDevice` | libraries/YarpDeviceMapperLib/DeviceMapper.cpp:77-104 | offsets and index stay those of the simple mapping; a device without interface or answer is not registered |
| `DeviceMapper.DeviceMapper.Clear` | libraries/YarpDeviceMapperLib/DeviceMapper.cpp:144-154 | back to no device at all |
| `DeviceMapper.DeviceMapper.GetDevice` | libraries/YarpDeviceMapperLib/DeviceMapper.cpp:106-111 | the index agrees with the simple mapping by offsets |
| `DeviceMapper.DeviceMapper.GetDevices` | libraries/YarpDeviceMapperLib/DeviceMapper.cpp:118-142 | for every joint list the groups deliver, in order, value i to the device and axis of joint i, once each, and neighbours are of different devices |
| `DeviceMapper.DeviceMapper.MapSingleJoint` | libraries/YarpDeviceMapperLib/DeviceMapper.hpp:163-169 | the command reaches the axis of the joint, or false if its device lacks the interface |
| `DeviceMapper.DeviceMapper.MapJointGroup` | libraries/YarpDeviceMapperLib/DeviceMapper.hpp:197-212 | if all targeted devices implement the interface, every value is delivered exactly once and the result is the conjunction; effect and result are those of single commands one by one, in parallel too if no joint is given different values in two groups; otherwise false and nothing is called |
| `DeviceMapper.DeviceMapper.MapAllJoints` | libraries/YarpDeviceMapperLib/DeviceMapper.hpp:176-190 | the effect and result of single commands to all joints whose device implements the interface, however dispatched; false if none does |
| `DeviceMapper.GroupsAreApart` | libraries/YarpDeviceMapperLib/DeviceMapper.cpp:118-142 | groups share no axis if and only if joints listed twice have only joints of the same device between them |
| `DeviceMapper.GroupsAreHarmless` | libraries/YarpDeviceMapperLib/DeviceMapper.cpp:118-142 | the calls of the groups give no axis different values if and only if joints listed twice with different values have only joints of the same device between them |
| `DeviceMapper.CallsAreOneByOne` | libraries/YarpDeviceMapperLib/DeviceMapper.hpp:197-212 | the calls of the groups, strung together, are the single commands in order |
| `DeviceMapper.GroupSets` | libraries/YarpDeviceMapperLib/DeviceMapper.hpp:197-212 | with commands that set a value and joints that all differ, the axis of each listed joint has its value in the end, and every other axis is as it was |
| `DeviceMapper.AllJointsSet` | libraries/YarpDeviceMapperLib/DeviceMapper.hpp:176-190 | likewise for all joints: each axis whose device implements the interface has the value of its joint, and the others are as they were |
| `EmulatedControlboard.Board.Run` | libraries/YarpPlugins/EmulatedControlboard/PeriodicThreadImpl.cpp:18-62 | every joint makes one tick of the time since the last one |
| `EmulatedControlboard.Board.Stop` | libraries/YarpPlugins/EmulatedControlboard/IPositionControlImpl.cpp:340-351 | the joint stands still and is no longer controlled; an index out of bounds changes nothing and returns false, but for the number of joints itself, which reaches past the vectors |
| `EmulatedControlboard.Board.PositionMoveOne` | libraries/YarpPlugins/EmulatedControlboard/IPositionControlImpl.cpp:18-57 | in position mode the joint is launched towards the reference, or stopped if it is there; other joints are left alone; false in another mode or out of bounds, but for the number of joints itself in position mode |
| `EmulatedControlboard.Board.PositionMoveAll` | libraries/YarpPlugins/EmulatedControlboard/IPositionControlImpl.cpp:61-110 | in position mode every joint moves along for the longest of the times at reference speed |
| `EmulatedControlboard.Board.VelocityMoveOne` | libraries/YarpPlugins/EmulatedControlboard/IVelocityControlImpl.cpp:11-28 | in velocity mode the joint is driven at the speed; false in another mode or out of bounds, but for the number of joints itself in velocity mode |
| `EmulatedControlboard.Board.VelocityMoveAll` | libraries/YarpPlugins/EmulatedControlboard/IVelocityControlImpl.cpp:32-42 | in velocity mode every joint is driven at its speed, in another mode none is and false is returned |
| `EmulatedControlboard.MaxTime` | libraries/YarpPlugins/EmulatedControlboard/IPositionControlImpl.cpp:70-86 | at least the time of every joint, and zero or the time of one of them |
| `EmulatedControlboard.MotionEnds` | libraries/YarpPlugins/EmulatedControlboard/PeriodicThreadImpl.cpp:18-62 | a joint on the move, either way, after any ticks of d to D: never back, at most two ticks past a limit it started inside of and, in a position move, past the near edge of its tolerance band; at its speed and not stopped before one of them; stopped once the ticks suffice to get to either |
| `EmulatedControlboard.VelocityMoveEnds` | libraries/YarpPlugins/EmulatedControlboard/PeriodicThreadImpl.cpp:18-62 | a velocity move goes on at its speed up to the limit ahead, whatever target and tolerance: not stopped before it, stopped once the ticks suffice to get there, and past it by at most 2 speed D if it started inside |
| `EmulatedControlboard.StopsAfterPast` | libraries/YarpPlugins/EmulatedControlboard/PeriodicThreadImpl.cpp:18-62 | any joint on the move, under any ticks, is exactly where its speed takes it until the end of the first tick before which it was past a point where it is to stop, and there it stops |
| `EmulatedControlboard.PositionMoveEnds` | libraries/YarpPlugins/EmulatedControlboard/IPositionControlImpl.cpp:18-57 | a position move stops within floor((distance - tolerance)/(speed d)) + 2 ticks, past the near edge by at most 2 speed D unless a limit stopped it, and past that limit by no more |
| `EmulatedControlboard.MovedAlongIsLaunched` | libraries/YarpPlugins/EmulatedControlboard/IPositionControlImpl.cpp:88-107 | in a coordinated move each joint stays within its reference speed and would arrive after the same time |
| `EmulatedControlboard.CoordinatedMoveEnds` | libraries/YarpPlugins/EmulatedControlboard/IPositionControlImpl.cpp:61-110 | and stops with the same bounds, one tick after the longest nominal time at the latest |
| `EmulatedControlboard.NowhereToGo` | libraries/YarpPlugins/EmulatedControlboard/IPositionControlImpl.cpp:88-107 | a coordinated move of joints that are all there moves none, where the speed computed is not a number |
| `EmulatedControlboard.TickStaysOnCourse` | libraries/YarpPlugins/EmulatedControlboard/PeriodicThreadImpl.cpp:18-62 | one tick keeps a joint between what n ticks cover at least and the overshoot it may have |
| `EmulatedControlboard.MirrorTick` | libraries/YarpPlugins/EmulatedControlboard/PeriodicThreadImpl.cpp:18-62 | a tick treats both directions of an axis alike |

## Left out

- YARP ports, bottles, property parsing, logging, opening and closing of devices: no invariant of their own.
- ioctl, pcanfd and select calls, serial lines, sensors, firmware and the bus itself: outcomes are parameters or nondeterministic steps.
- Forwarding files of the control boards, FakeJoint, and the tables of abort and EMCY texts: easy members only.
- Real clocks: time is an input, and a timeout a step that may happen while a caller is blocked.
- Floating-point rounding and overflow: reals, with truncation and rounding to integers written out. Unit conversions of the drive are not part of this model and are an abstract function.
- SdoClient.Client.UploadInternal: the room of the caller is a length; what writing beyond it does to other memory is not modelled, nor what an expedited reply without a size does when the caller asks for more than its four bytes.
- SdoTransfers.StringRoundTrip: what is read behind a buffer without a terminator is not modelled: the text ends with the bytes that are known.
- SdoTransfers.RoundTrip: a reply that comes after its await has timed out, and is taken for that of a later request, is covered by the arbitrary peer only.
- SdoClient.Client.DownloadInternal: sizes of 2^32 and more, which the source cannot express, are excluded.
- ThreadPool.StopWaitsForAll: resizing to fewer threads and stop(false) drop work by design and are no steps of the model; tasks that throw or push other tasks are not either.
- StateObserver.AwaitIsHonest: a payload longer than the buffer enlarges the buffer in the model, where the copy in libraries/StateObserverLib/StateObserver.cpp:178-181 would overrun it; an observer that is destroyed while a caller waits is not modelled.
- InterpolatedPosition.FixedPointRoundTrip: an integer part out of 16 bits, whose conversion the source's language leaves open, is taken to wrap around.
- InterpolatedPosition.RecordVelocity: a quotient by a zero time difference is not modelled.
- InterpolatedPosition.InterpolatedPositionBuffer.GetSampledTime: the sample count is unbounded; the source keeps it in 32 bits.
- DriveStatusMachine.Machine.RequestState: the mutex around the stored words is not modelled, as each access is one step; an obedient drive answers only to commands, with a latency counted in moments of the request, 0 being while the command goes out, and before an await times out.
- TransmitQueue.CanWriter.Flush: the log of sent messages, the bus load monitor and the error bookkeeping are not modelled; one flush and one producer call are atomic, as the source holds a mutex in both.
- PdoProtocol.Protocol.Configure: the settings are a value; the setters that collect them, and the packing of index, subindex and size into a mapping entry, are not modelled.
- AcceptanceFilter.CanBusPeak.CanIdAdd: a call to the driver that fails is taken to change nothing there; the filters set while the device is opened are not modelled.
- FilterManager.BulkUpdate: a read out of bounds is an outcome of its own; what it does is not modelled. The masked filter of a single id is therefore never set. The set of ids is the sequence in which it is visited.
- FutureTask.ParallelIsSequential: a command to one axis is atomic, and devices do not influence each other; the pool behind it is the subject of `ThreadPool`.
- DeviceMapper.DeviceMapper.GetDevice: joints out of range, which the source does not check, are excluded.
- EmulatedControlboard.Board.Stop: reaching past the vectors is an outcome of its own; what it does is not modelled.
- EmulatedControlboard.PositionMoveEnds: positive speeds and tolerances and equal encoder and velocity ratios, as the default configuration has them.
- Relative moves and position direct commands of the emulated board, and access to its encoders by other threads between a tick's reading and writing.
- The Synapse protocol of the Dextra hand, the FIFO of received messages, heartbeat, NMT, SYNC and EMCY services.
