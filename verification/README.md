# Verified core of the chat server

A Dafny model of the parts of the IM server that are hardest to get right by reading: the calendar and time
zone arithmetic, the reactor (event loop, timer queue, pollers), the byte stream (buffer, codec, connection),
the asynchronous log, the thread pool, and the friend graph kept in memory and in MySQL.

`dafny verify dfyconfig.toml` checks everything.

| file | models |
|---|---|
| `CInt.dfy`, `Calendar.dfy` | C++ truncating division; Julian day numbers against the Gregorian calendar |
| `TimeZone.dfy` | UTC break-down, transition tables, lookups through skipped and repeated hours |
| `EventLoop.dfy` | functor queueing between threads, as interleaved steps |
| `TimerSteps.dfy`, `TimerQueue.dfy` | the timer queue as steps with re-entrant callbacks, and as an object that takes them |
| `Pollers.dfy` | `PollPoller` and `EPollPoller` and the interest table both maintain |
| `Bytes.dfy`, `Buffer.dfy` | network-order integers; the compacting buffer over an array |
| `Adler32.dfy`, `Codec.dfy` | the checksum of section 2.2 of RFC 1950; framing and the receive loop |
| `TcpConnection.dfy`, `EndToEnd.dfy` | the output path with partial writes and half-close; codec over connection over codec |
| `AsyncLogging.dfy`, `ThreadPool.dfy` | the log's rotating buffers and the bounded task queue, as interleaved steps |
| `FriendGraph.dfy`, `UserManager.dfy` | the friend graph and its tables; the manager object with its two indexes |

How the code is read:

- Concurrent code is a set of steps. A step is what one thread does between two points where another thread can
  see it. Everything the environment decides (which sleeper a signal wakes, how many bytes a write takes, whether
  an SQL statement is applied) is part of the step, and the results hold for every sequence of enabled steps.
- Objects are classes whose methods are proved equal to functions on the object's value; the laws are then proved
  about those functions over whole runs.
- Integers are unbounded. Truncation toward zero is modelled where operands can be negative.
  `Calendar.FitsInt32` gives the exact range in which the conversion from day number to date stays within 32 bits,
  and `Calendar.NumberFitsInt32` shows that the opposite conversion does so on the same range.
- The user manager is taken to be called from one thread: its SQL runs outside its mutex, so two calls at once could
  interleave between a statement and the update of the cache.
- An assertion of the source is a precondition where it binds the caller, and a proved fact otherwise.

Where the code does less than its comments or its name promise, the exact condition is proved next to a concrete
case: `weekDay` outside 0..6 (`WeekDayRange`), an hour repeated at the last transition (`PreIsEarliest`,
`LocalRoundTrip`, `LastRepeatIsLost`), day numbers below the calendar's domain (`DomainIsTight`, `DayBeforeDomain`),
functors queued by the loop thread before `loop()` (`NoLostWakeup`, `EarlyFunctorStrands`), a quit
before `loop()` (`QuitDecidesExit`, `EarlyQuitIsForgotten`, `EarlyQuitOfOtherIsForgotten`), cancelling a timer that has
not been added yet (`CancelIsFinal`, `CancelTooEarly`), a direct write that faults (`RunConserves`, `FaultDrops`), log
batches over 25 buffers (`FileIsTheLog`, `BurstOverflows`) and lines as long as a buffer (`LineIsKept`), disabling a
disabled channel under epoll (`ListsStayEqual`, `SecondDisableRegisters`), removing a channel under poll that was only
ever updated once, without events (`PollAcceptsExactly`, `EmptyFirstUpdateStays`), and friendship with an unregistered id
(`MakeNeedsRegistered`, `OneSidedEdge`).

## Model

| member | source | states |
|---|---|---|
| `Calendar.DateRoundTrip` | IMServer/base/Date.cc:21-43 | every date from 1 March -4800 on comes back from its day number |
| `Calendar.NumberRoundTrip` | IMServer/base/Date.cc:21-43 | every day number from -32044 on names a valid Gregorian date whose number it is |
| `Calendar.SuccessorAddsOne` | IMServer/base/Date.cc:21-28 | the next day under the 4/100/400 leap rule has the next day number |
| `Calendar.EnumeratesCalendar` | IMServer/base/Date.cc:30-43 | the n-th day number is the date reached by counting n days from 1 March -4800 |
| `Calendar.DomainIsTight` | IMServer/base/Date.cc:30-43 | the conversion yields a real date if and only if the day number is at least -32044 |
| `Calendar.DayBeforeDomain` | IMServer/base/Date.cc:30-43 | one day earlier it yields a day zero, because division truncates |
| `Calendar.OrderIsCalendarOrder` | IMServer/base/Date.h:107-110 | comparing day numbers is comparing dates |
| `Calendar.WeekDayAdvances` | IMServer/base/Date.h:96-99 | the week day advances cyclically from each date to its successor |
| `Calendar.WeekDayRange` | IMServer/base/Date.h:95-99 | the promised range 0..6 holds exactly for day numbers from -1 on and multiples of a week before |
| `Calendar.FitsInt32` | IMServer/base/Date.cc:30-43 | no intermediate value of the conversion to a date leaves 32 bits, exactly up to day number 536838867 |
| `Calendar.NumberFitsInt32` | IMServer/base/Date.cc:21-28 | nor does any of the conversion from a date, for all dates up to that day |
| `TimeZone.EpochIs1970` | IMServer/base/Date.cc:45 | the epoch constant is the day number of 1 January 1970 |
| `TimeZone.BreakTimeByFloor` | IMServer/base/TimeZone.cc:293-312 | the correction after truncating division amounts to floor division, for negative seconds too |
| `TimeZone.UtcRoundTrip` | IMServer/base/TimeZone.cc:285-312 | every second of the domain, negative ones included, breaks into fields in range and comes back |
| `TimeZone.BreakTimeTicks` | IMServer/base/TimeZone.cc:285-312 | from midnight of 1 January 1970 on and back, one more second is one tick of the clock with its carries, into the next calendar day too |
| `TimeZone.DateTimeRoundTrip` | IMServer/base/TimeZone.cc:498-504 | every valid date-time comes back from its second count |
| `TimeZone.LoadTable` | IMServer/base/TimeZone.cc:208-222 | filling the table fails exactly on an index out of range; otherwise transition i has time i, the type that index i names, and a local time of UTC plus that type's offset |
| `TimeZone.LoadedShows` | IMServer/base/TimeZone.cc:318-356 | a loaded zone shows, from each time of the decoded array up to the next, the offset of the type given for it, and before the first time that of the first type |
| `TimeZone.UpperBound` | IMServer/base/TimeZone.cc:339-341 | the first position whose key exceeds the searched one |
| `TimeZone.PeriodAt` | IMServer/base/TimeZone.cc:318-356 | the UTC lookup finds the offset of the last transition not after the second |
| `TimeZone.Preimages` | IMServer/base/TimeZone.cc:358-430 | the UTC seconds that show a local second, in terms of the transition found, and that it is never skipped and repeated at once |
| `TimeZone.PostIsLatest` | IMServer/base/TimeZone.cc:358-430 | with the flag, the answer is the latest UTC second that shows the local second |
| `TimeZone.PreIsEarliest` | IMServer/base/TimeZone.cc:358-430 | without the flag, it is the earliest one, exactly unless the second is repeated at the last transition |
| `TimeZone.UniqueIsExact` | IMServer/base/TimeZone.cc:428-429 | a local second shown once maps to the second that shows it under either flag |
| `TimeZone.AtMostTwo` | IMServer/base/TimeZone.cc:406-426 | no local second is shown three times |
| `TimeZone.SkippedStraddles` | IMServer/base/TimeZone.cc:392-404 | a local second never shown lies in one transition's gap, and the two answers fall on its two sides |
| `TimeZone.LocalRoundTrip` | IMServer/base/TimeZone.cc:318-430 | which UTC seconds survive the trip to local seconds and back under one of the flags: decided for all of them |
| `TimeZone.LocalTimeRoundTrip` | IMServer/base/TimeZone.cc:461-491 | the same through broken-down local time |
| `TimeZone.FixedZoneRoundTrip` | IMServer/base/TimeZone.cc:454-459 | a zone with one offset loses nothing |
| `TimeZone.LastRepeatIsLost` | IMServer/base/TimeZone.cc:374-378 | a concrete zone in which the first showing of a repeated hour cannot be recovered |
| `EventLoop.StepKeepsAwake` | IMServer/net/EventLoop.cc:160-171 | every step of every thread keeps: pending functors have a swap ahead of them or a wakeup on its way |
| `EventLoop.StepKeepsOrdered` | IMServer/net/EventLoop.cc:254-269 | every step keeps: queued functors are the run ones, the swapped ones and the pending ones, in order |
| `EventLoop.QueuedIsQueued` | IMServer/net/EventLoop.cc:160-171 | every call of queueInLoop, from any thread, queues its functor, in order |
| `EventLoop.RunsInOrder` | IMServer/net/EventLoop.cc:254-269 | in every interleaving the functors passed to queueInLoop are, in the order of the calls, those that have run followed by those swapped out and those pending |
| `EventLoop.NoLostWakeup` | IMServer/net/EventLoop.cc:111-171 | in every interleaving, a loop blocked with functors pending has the eventfd readable or a thread about to write it, if and only if another thread queued or quit or the queue was swapped before; blocked with quit requested it always has |
| `EventLoop.NoLostWakeupInLoop` | IMServer/net/EventLoop.cc:111-171 | so it always has, if the loop thread queues nothing before loop() |
| `EventLoop.OneTurnRunsAll` | IMServer/net/EventLoop.cc:111-130 | whenever a wakeup is coming, the owed write if any, the return of poll on a readable eventfd and one turn of the loop run every functor passed to queueInLoop so far, without a timeout |
| `EventLoop.EveryTurnRunsAll` | IMServer/net/EventLoop.cc:111-130 | in every interleaving, once the loop has come through a turn, every functor passed to queueInLoop before it has run, in order |
| `EventLoop.EarlyFunctorStrands` | IMServer/net/EventLoop.cc:167-170 | a functor queued by the loop thread before loop() leaves the loop blocked without a wakeup |
| `EventLoop.QuitDecidesExit` | IMServer/net/EventLoop.cc:103-146 | in every interleaving loop() has returned only if quit() was called since it was entered, the test of the flag ends it if and only if it was, and a blocked loop told to quit has a wakeup coming |
| `EventLoop.QuitEndsLoop` | IMServer/net/EventLoop.cc:111-146 | after a quit() inside loop() the next test ends it, whatever the other threads and the functors do |
| `EventLoop.EarlyQuitIsForgotten` | IMServer/net/EventLoop.cc:107-108 | a quit() of the loop thread before loop() is forgotten, and the loop blocks |
| `EventLoop.EarlyQuitOfOtherIsForgotten` | IMServer/net/EventLoopThread.cc:27-69 | so is the quit() of another thread, as of a destructor that comes before loop(): its wakeup costs one turn, then the loop blocks |
| `TimerSteps.TimeSpecIsPositive` | IMServer/net/TimerQueue.cc:41-55 | the relative time handed to the kernel is exact, normalized and at least 100 microseconds, so it never disarms |
| `TimerSteps.StepKeepsInv` | IMServer/net/TimerQueue.cc:132-259 | every add, cancel, alarm start and alarm end keeps both indexes equal to the live timers under their current expirations |
| `TimerSteps.RunKeepsInv` | IMServer/net/TimerQueue.cc:132-259 | the same over every run, with callbacks free to add and cancel and addresses reusable |
| `TimerSteps.SizesAgree` | IMServer/net/TimerQueue.cc:235-259 | the two indexes have the same size, as asserted throughout, between the turns of reset too |
| `TimerSteps.ExpiredIsDue` | IMServer/net/TimerQueue.cc:187-191 | the sentry splits the timers by time alone |
| `TimerSteps.MemorySafe` | IMServer/net/TimerQueue.cc:143-259 | cancel, getExpired and reset only touch live timers and find what their asserts expect, and insert is given only timers that are in neither index |
| `TimerSteps.SequencesDelete` | IMServer/net/TimerQueue.cc:153 | deleting keeps: every timer ever created is live or deleted, once |
| `TimerSteps.CancelIsFinal` | IMServer/net/TimerQueue.cc:143-161 | once cancelled, also from within its own callback, a timer is never active again in any continuation |
| `TimerSteps.CancelTooEarly` | IMServer/net/TimerQueue.cc:116-130 | the exception: a timer not yet added is armed all the same |
| `TimerSteps.CancelSparesOthers` | IMServer/net/TimerQueue.cc:143-161 | cancelling leaves every other timer as it is, waiting, running or not yet added; a stale id does nothing to a new timer at its address |
| `TimerSteps.DueIsTaken` | IMServer/net/TimerQueue.cc:163-202 | an alarm takes an active timer along if and only if it is due |
| `TimerSteps.ActiveWaits` | IMServer/net/TimerQueue.cc:132-233 | in every continuation without a cancel of its own id, an active timer stays active as it is up to the first alarm for which it is due, which takes it |
| `TimerSteps.TimerWaitsUntilDue` | IMServer/net/TimerQueue.cc:116-141 | the same from addTimer on: with its own time, interval and new sequence number, however much happens before the loop thread adds it |
| `TimerSteps.RepeaterComesBack` | IMServer/net/TimerQueue.cc:163-222 | a repeating timer that no callback cancels is re-armed one interval after the alarm began |
| `TimerSteps.RearmAllDeletes` | IMServer/net/TimerQueue.cc:208-222 | one-shot and cancelled timers of the batch are deleted |
| `TimerSteps.StepKeepsReady` | IMServer/net/TimerQueue.cc:132-233 | every step keeps the timerfd armed for each pending timer |
| `TimerSteps.AlwaysArmed` | IMServer/net/TimerQueue.cc:132-233 | after every run, between alarms, the timerfd is due no later than any pending expiration, up to the 100 microsecond floor |
| `TimerSteps.AlarmIsConsumed` | IMServer/net/TimerQueue.cc:163-233 | an alarm consumes the expiration it was raised for and no other, and while timers are left the next comes no sooner than 100 microseconds after its end |
| `TimerQueue.Queue.Insert` | IMServer/net/TimerQueue.cc:235-259 | enters both indexes and reports whether the timer precedes all others |
| `TimerQueue.Queue.AddTimerInLoop` | IMServer/net/TimerQueue.cc:132-141 | takes the add step |
| `TimerQueue.Queue.CancelInLoop` | IMServer/net/TimerQueue.cc:143-161 | takes the cancel step |
| `TimerQueue.Queue.GetExpired` | IMServer/net/TimerQueue.cc:183-202 | moves exactly the entries below the sentry out of timers_, in order |
| `TimerQueue.Queue.BeginAlarm` | IMServer/net/TimerQueue.cc:163-173 | takes the step up to the first callback |
| `TimerQueue.Queue.Reset` | IMServer/net/TimerQueue.cc:204-233 | re-arms or deletes the batch in turn, then arms the timerfd for the first timer left |
| `TimerQueue.Queue.EndAlarm` | IMServer/net/TimerQueue.cc:178-180 | takes the step after the last callback |
| `Pollers.AddIsUpdate` | IMServer/net/poller/PollPoller.cc:79-91 | a new slot keeps slots and channels in bijection and enters the mask in the table |
| `Pollers.SetIsUpdate` | IMServer/net/poller/PollPoller.cc:92-109 | changing a slot, negated or not, keeps the bijection and changes one entry |
| `Pollers.DropIsRemove` | IMServer/net/poller/PollPoller.cc:112-140 | swap-removal keeps the bijection and removes one entry, for any slot and any encoding of the last one |
| `Pollers.KernelSeesView` | IMServer/net/poller/PollPoller.cc:29-32 | poll(2) is given exactly the watched descriptors with their channels' masks |
| `Pollers.PollPoller.UpdateChannel` | IMServer/net/poller/PollPoller.cc:75-110 | updates the channel's mask, its slot and the table |
| `Pollers.PollPoller.RemoveChannel` | IMServer/net/poller/PollPoller.cc:112-140 | removes the channel and re-indexes the one moved into its slot |
| `Pollers.PollPoller.FillActiveChannels` | IMServer/net/poller/PollPoller.cc:55-73 | hands out each marked channel once, in slot order, with its returned events |
| `Pollers.EPollPoller.Update` | IMServer/net/poller/EPollPoller.cc:172-192 | changes the kernel list; its callers never provoke EEXIST or ENOENT |
| `Pollers.EPollPoller.UpdateChannel` | IMServer/net/poller/EPollPoller.cc:107-149 | keeps tags, channel map and kernel list consistent and changes one entry |
| `Pollers.EPollPoller.RemoveChannel` | IMServer/net/poller/EPollPoller.cc:151-170 | removes the channel from map and kernel list, and makes it new again |
| `Pollers.SameWatch` | IMServer/net/poller/PollPoller.cc:75-140 | every run that PollPoller accepts is accepted by EPollPoller, and both watch exactly the non-empty masks of the channels |
| `Pollers.WatchesLastRequest` | IMServer/net/poller/EPollPoller.cc:107-170 | after every run both pollers watch a descriptor exactly for the events its last operation asked for |
| `Pollers.PollAcceptsExactly` | IMServer/net/poller/PollPoller.cc:75-140 | PollPoller accepts a run if and only if EPollPoller does and no operation removes a channel whose only update so far was its first, without events |
| `Pollers.ListsStayEqual` | IMServer/net/poller/EPollPoller.cc:113-129 | over a run the kernel lists, empty masks included, are equal after every prefix if and only if no operation disables a channel that is disabled already |
| `Pollers.SecondDisableRegisters` | IMServer/net/poller/EPollPoller.cc:113-129 | disabling twice makes epoll watch the descriptor again, poll not |
| `Pollers.EmptyFirstUpdateStays` | IMServer/net/Acceptor.cc:40-45 | an acceptor that never listened disables and removes its channel: EPollPoller accepts that, PollPoller only after another update |
| `Bytes.SignedRoundTrip` | IMServer/net/Endian.h:29-57 | every integer that fits survives conversion to network order and back, for any width |
| `Bytes.BigEndianDigit` | IMServer/net/Endian.h:29-42 | each byte is its digit to the base 256, most significant first |
| `Bytes.SignedInjective` | IMServer/net/Endian.h:44-57 | different bytes are different integers |
| `Buffer.Buffer.Retrieve` | IMServer/net/Buffer.h:113-124 | drops a prefix of the readable bytes |
| `Buffer.Buffer.RetrieveAsString` | IMServer/net/Buffer.h:164-170 | splits the readable bytes |
| `Buffer.Buffer.Append` | IMServer/net/Buffer.h:182-187 | concatenates, whether space is free, made by moving or made by growing |
| `Buffer.Buffer.EnsureWritableBytes` | IMServer/net/Buffer.h:194-201 | makes the space and leaves the content |
| `Buffer.Buffer.MakeSpace` | IMServer/net/Buffer.h:390-409 | grows exactly when moving would not free enough, to exactly the size needed, leaves the content, and its assert always holds |
| `Buffer.Buffer.MoveDown` | IMServer/net/Buffer.h:402-404 | the overlapping copy moves the bytes intact |
| `Buffer.Buffer.Unwrite` | IMServer/net/Buffer.h:215-219 | drops a suffix |
| `Buffer.Buffer.Prepend` | IMServer/net/Buffer.h:354-360 | adds a prefix |
| `Buffer.Buffer.Shrink` | IMServer/net/Buffer.h:362-369 | leaves the content and the smallest storage the constructor and the reserve allow |
| `Buffer.Buffer.ReadFd` | IMServer/net/Buffer.cc:25-57 | concatenates what the scatter read delivered, in both parts, and leaves the content on error |
| `Buffer.Buffer.AppendInt` | IMServer/net/Buffer.h:224-248 | appends an integer of any width in network order |
| `Buffer.Buffer.PrependInt` | IMServer/net/Buffer.h:328-352 | prepends one |
| `Buffer.Buffer.PeekInt` | IMServer/net/Buffer.h:290-323 | reads the leading integer and changes nothing |
| `Buffer.Buffer.ReadInt` | IMServer/net/Buffer.h:254-284 | reads and removes it |
| `Buffer.Buffer.IntRoundTrip` | IMServer/net/Buffer.h:224-284 | an appended integer is read back and leaves the buffer empty |
| `Buffer.DoIsOnBytes` | IMServer/net/Buffer.h:113-219 | each operation does to the content what it does to a plain byte sequence, wherever the content is kept |
| `Buffer.Run` | IMServer/net/Buffer.h:113-219 | so does every sequence of operations on a new buffer that meets their assertions |
| `Adler32.Reduced` | IMServer/net/protobuf/ProtobufCodecLite.cc:195-199 | reducing after every byte is reducing once |
| `Adler32.AdlerByWeight` | IMServer/net/protobuf/ProtobufCodecLite.cc:195-199 | the closed form of RFC 1950: the sum of the bytes weighted by position in the high half, their plain sum plus one in the low half |
| `Adler32.OneByteChangesSum` | IMServer/net/protobuf/ProtobufCodecLite.cc:195-199 | one changed byte changes the checksum, at any length |
| `Adler32.SwapChangesSum` | IMServer/net/protobuf/ProtobufCodecLite.cc:195-199 | two different neighbours swapped change it |
| `Codec.FillEmptyBuffer` | IMServer/net/protobuf/ProtobufCodecLite.cc:42-56 | leaves exactly the frame of the message in the buffer |
| `Codec.FrameLayout` | IMServer/net/protobuf/ProtobufCodecLite.h:40-47 | every byte of a frame as the wire format has it: length of the rest, tag, payload, Adler-32 of tag and payload |
| `Codec.OnMessage` | IMServer/net/protobuf/ProtobufCodecLite.cc:58-97 | delivers, keeps and reports what draining the buffered bytes yields, and terminates because each turn takes a frame |
| `Codec.LoopBody` | IMServer/net/protobuf/ProtobufCodecLite.cc:64-95 | one turn of the loop |
| `Codec.TurnIsStable` | IMServer/net/protobuf/ProtobufCodecLite.cc:62-95 | bytes that arrive later do not change a turn that did not wait for them |
| `Codec.DrainInTwo` | IMServer/net/protobuf/ProtobufCodecLite.cc:58-97 | draining, waiting and draining again equals draining once, for any bytes |
| `Codec.FeedIsDrain` | IMServer/net/protobuf/ProtobufCodecLite.cc:58-97 | for any byte stream and any cutting into reads, messages, rest and last error equal those of one read |
| `Codec.ErrorIsFinal` | IMServer/net/protobuf/ProtobufCodecLite.cc:65-69 | after an error later bytes deliver nothing and the error repeats |
| `Codec.FrameIsDelivered` | IMServer/net/protobuf/ProtobufCodecLite.cc:70-85 | a frame at the head of the buffer is delivered and removed |
| `Codec.RoundTrip` | IMServer/net/protobuf/ProtobufCodecLite.cc:42-97 | any list of messages, encoded and read in any chunks, is delivered exactly, in order, leaving the buffer empty |
| `Codec.PrefixDelivers` | IMServer/net/protobuf/ProtobufCodecLite.cc:58-97 | any prefix of an encoded stream delivers a prefix of the messages and no error |
| `Codec.OversizedIsRefused` | IMServer/net/protobuf/ProtobufCodecLite.cc:65-69 | a frame over 64 MiB is refused and blocks the stream |
| `Codec.BadLengthIsRefused` | IMServer/net/protobuf/ProtobufCodecLite.cc:62-69 | so is any length field out of range, negative ones included |
| `Codec.RawFrameIsSkipped` | IMServer/net/protobuf/ProtobufCodecLite.cc:72-76 | a frame the raw callback keeps is consumed, not delivered |
| `Codec.SealedIsValid` | IMServer/net/protobuf/ProtobufCodecLite.cc:201-207 | what the encoder seals validates |
| `Codec.DamageIsReported` | IMServer/net/protobuf/ProtobufCodecLite.cc:209-242 | one changed byte after the length field, checksum included, is reported as a checksum error |
| `Codec.SwapIsReported` | IMServer/net/protobuf/ProtobufCodecLite.cc:209-242 | two swapped neighbours in tag or payload are too |
| `Codec.DamageStopsStream` | IMServer/net/protobuf/ProtobufCodecLite.cc:58-97 | the receive loop stops at a frame with one changed byte: checksum error, nothing delivered or consumed from there on |
| `Codec.SwapStopsStream` | IMServer/net/protobuf/ProtobufCodecLite.cc:58-97 | and at a frame with two swapped neighbours |
| `Codec.OtherTagIsReported` | IMServer/net/protobuf/ProtobufCodecLite.cc:217-234 | an intact frame under another tag is an unknown message type |
| `Codec.BadPayloadIsReported` | IMServer/net/protobuf/ProtobufCodecLite.cc:219-229 | an intact frame whose payload does not parse is a parse error |
| `TcpConnection.TcpConnection.Send` | IMServer/net/TcpConnection.cc:92-110 | takes the send step on the loop thread |
| `TcpConnection.TcpConnection.SendInLoop` | IMServer/net/TcpConnection.cc:139-192 | offers the data to the kernel if nothing waits, and keeps the rest unless the write faulted |
| `TcpConnection.TcpConnection.Shutdown` | IMServer/net/TcpConnection.cc:194-203 | takes the shutdown step |
| `TcpConnection.TcpConnection.ShutdownInLoop` | IMServer/net/TcpConnection.cc:205-213 | half-closes only when not writing |
| `TcpConnection.TcpConnection.HandleWrite` | IMServer/net/TcpConnection.cc:368-406 | takes the writable step: drain, drop write interest, finish a pending shutdown |
| `TcpConnection.TcpConnection.HandleClose` | IMServer/net/TcpConnection.cc:408-421 | takes the close step |
| `TcpConnection.StepKeepsSound` | IMServer/net/TcpConnection.cc:139-213 | every event keeps: write interest exactly while bytes wait, at most one half-close, and only when none wait |
| `TcpConnection.RunKeepsSound` | IMServer/net/TcpConnection.cc:139-213 | the same over every run, faults included |
| `TcpConnection.RunConserves` | IMServer/net/TcpConnection.cc:139-192 | after every run accepted bytes are written ones followed by buffered ones, if and only if no direct write of data faulted |
| `TcpConnection.ShutdownAfterLastByte` | IMServer/net/TcpConnection.cc:194-213 | the write side is shut down at most once, only after every accepted byte, and always once they are gone |
| `TcpConnection.StateByEvents` | IMServer/net/TcpConnection.cc:194-213 | until closed, a connection is disconnecting if and only if shutdown() was called after it was established |
| `TcpConnection.ShutdownExactly` | IMServer/net/TcpConnection.cc:194-213 | until closed, the write side has been shut down, once, if and only if shutdown() was called on the established connection and the kernel has taken every accepted byte |
| `TcpConnection.StepWrites` | IMServer/net/TcpConnection.cc:139-177 | each event writes exactly as many bytes as the kernel answered, if it was offered any, and the next ones in order |
| `TcpConnection.DrainFinishes` | IMServer/net/TcpConnection.cc:368-406 | when the kernel takes all that waits, nothing waits any more, write interest is dropped and a pending half-close is done |
| `TcpConnection.CloseIsFinal` | IMServer/net/TcpConnection.cc:408-421 | a closed connection stays as it is, whatever is called on it |
| `TcpConnection.ShutdownIsFinal` | IMServer/net/TcpConnection.cc:194-213 | after that nothing is accepted or written |
| `TcpConnection.WriteCompleteIsTimely` | IMServer/net/TcpConnection.cc:157-160 | write-complete is queued exactly when the kernel takes the last waiting byte |
| `TcpConnection.HighWaterIsTimely` | IMServer/net/TcpConnection.cc:179-185 | high-water is queued exactly on crossing the mark from below, with the new size |
| `TcpConnection.FaultDrops` | IMServer/net/TcpConnection.cc:162-177 | a faulting direct write drops the message while the connection stays open |
| `EndToEnd.Delivered` | IMServer/net/protobuf/ProtobufCodecLite.cc:33-40 | for every run of sends, partial writes and shutdown, and every way the bytes arrive, the peer delivers a prefix of the messages without error, and all of them by the half-close |
| `EndToEnd.AcceptedIsData` | IMServer/net/TcpConnection.cc:92-110 | accepted bytes are the data of the accepted sends, in order |
| `AsyncLogging.StepKeepsSpares` | IMServer/base/AsyncLogging.cc:34-135 | every step keeps: no spare buffer in hand means a full one is queued |
| `AsyncLogging.NeverAborts` | IMServer/base/AsyncLogging.cc:71-129 | no assert of the logging thread fails in any interleaving, with lines of any length |
| `AsyncLogging.RunConserves` | IMServer/base/AsyncLogging.cc:34-135 | in every interleaving the appended bytes are those of the finished rounds and those in flight, in order |
| `AsyncLogging.FileIsTheLog` | IMServer/base/AsyncLogging.cc:34-107 | the file followed by what is in flight is what was appended, if and only if no batch exceeded 25 buffers and no line was as long as a buffer |
| `AsyncLogging.AppendedIsLines` | IMServer/base/AsyncLogging.cc:34-56 | what counts as appended is the lines of the append calls, in order |
| `AsyncLogging.LinesReachFile` | IMServer/base/AsyncLogging.cc:71-107 | in every interleaving, what is queued while the logging thread is outside a round, a partly filled buffer included, leads the next batch within three steps of that thread, and is in the file unless that batch exceeds 25 buffers; with no such batch, so is every line appended before |
| `AsyncLogging.OneRound` | IMServer/base/AsyncLogging.cc:71-107 | undisturbed, a round can be taken from any such state, writes exactly what was queued and leaves nothing in flight |
| `AsyncLogging.StopEndsLogger` | IMServer/base/AsyncLogging.cc:69 | after stop the logging thread leaves at its next look at the condition and writes nothing more |
| `AsyncLogging.BurstOverflows` | IMServer/base/AsyncLogging.cc:92-101 | more than 25 lines of nearly a buffer each before the logging thread gets the mutex: a run that loses bytes |
| `AsyncLogging.NoticeCountsDropped` | IMServer/base/AsyncLogging.cc:92-101 | a larger batch writes the number of buffers dropped, then its first two |
| `AsyncLogging.LineIsKept` | IMServer/base/AsyncLogging.cc:34-56 | a line is kept exactly if it is shorter than a buffer |
| `ThreadPool.StepKeepsInv` | IMServer/base/ThreadPool.cc:72-118 | every step keeps order, bound and the count of woken threads |
| `ThreadPool.TakenInOrder` | IMServer/base/ThreadPool.cc:72-118 | tasks are taken once each, in the order in which their producers found the pool running and room in the queue, and a positive bound is never exceeded |
| `ThreadPool.NoCallIsLost` | IMServer/base/ThreadPool.cc:72-118 | until the pool is stopped, every task passed to run was taken, is queued or has its producer waiting, and every call of take got a task or waits for one |
| `ThreadPool.NoLostSignal` | IMServer/base/ThreadPool.cc:72-118 | while a worker (producer) sleeps, queued tasks (free slots) do not outnumber the woken ones still to re-check |
| `ThreadPool.StopIsFinal` | IMServer/base/ThreadPool.cc:52-64 | stop wakes everyone, in whatever state it finds the pool; after it nobody sleeps and no task gets in |
| `FriendGraph.NewIdsAreFresh` | IMServer/UserManager.cpp:45-61 | a new user or group id is in neither table nor cache |
| `FriendGraph.StepKeepsAgree` | IMServer/UserManager.cpp:199-244 | every operation, applied or refused, keeps the friend sets equal to the relation table |
| `FriendGraph.RunKeepsAgree` | IMServer/UserManager.cpp:26-330 | the same over every run, restarts included |
| `FriendGraph.FriendshipIsSymmetric` | IMServer/UserManager.cpp:199-244 | after every run friendship is symmetric, irreflexive, and holds exactly when the ordered pair is in the table |
| `FriendGraph.FriendsByHistory` | IMServer/UserManager.cpp:199-400 | after every run two users are friends, each in the other's set, if and only if the last applied statement on the pair made them so |
| `FriendGraph.EveryRegistrationCounts` | IMServer/UserManager.cpp:45-75 | every applied registration adds one user or group that was not there, and nothing else does |
| `FriendGraph.IdsInOrder` | IMServer/UserManager.cpp:45-61 | until the next restart every attempt, applied or refused, uses up one id of its kind |
| `FriendGraph.ReloadRestores` | IMServer/UserManager.cpp:26-157 | loading the tables rebuilds the same friend sets |
| `FriendGraph.PartialReload` | IMServer/UserManager.cpp:35-41 | with failing relation queries, exactly if the users concerned had no friends |
| `FriendGraph.MakeNeedsRegistered` | IMServer/UserManager.cpp:199-219 | a stored pair keeps cache and table in agreement if and only if both ids are registered |
| `FriendGraph.OneSidedEdge` | IMServer/UserManager.cpp:212-217 | otherwise a one-sided edge can remain |
| `UserManager.UserManager.AddUser` | IMServer/UserManager.cpp:45-75 | takes the registration step, also on a cache that holds fewer ids than the table; list and map share the new object |
| `UserManager.UserManager.AddGroup` | IMServer/UserManager.cpp:301-330 | takes the group step |
| `UserManager.UserManager.MakeFriendRelationship` | IMServer/UserManager.cpp:199-219 | takes the befriend step and reports success exactly when both ends were updated |
| `UserManager.UserManager.ReleaseFriendRelationship` | IMServer/UserManager.cpp:221-244 | takes the release step |
| `UserManager.UserManager.DeleteFriendToUser` | IMServer/UserManager.cpp:376-400 | takes the delete step, in either order of the ids |
| `UserManager.UserManager.LoadUserFromDB` | IMServer/UserManager.cpp:77-127 | one shared object per row, and the id bases become the largest ids on each side of the group boundary |
| `UserManager.UserManager.LoadRelationshipFromDB` | IMServer/UserManager.cpp:129-157 | collects exactly the partners of the user |
| `UserManager.UserManager.Init` | IMServer/UserManager.cpp:26-43 | rebuilds the friend sets of all users whose query succeeds |

## Left out

- TimeZone.LoadTable: starts from decoded arrays; opening and decoding TZif files is not modelled, nor is 64-bit overflow of seconds.
- Calendar.OrderIsCalendarOrder: dates before 1 March -4800 are outside the model; day numbers below that day do not yield dates.
- EventLoop.NoLostWakeup: takes every write to the eventfd to succeed (its counter never reaches its maximum), and `quit_` to be read and written atomically. `runInLoop` on the loop thread calls the functor at once and is not a step.
- TimerSteps.AlwaysArmed: the wall clock and the monotonic clock of the timerfd are one clock that never goes back; an interval is a whole number of microseconds, without the rounding of `double`.
- TimerQueue.Queue.BeginAlarm: handleRead is split where it runs the callbacks, so one call of it is BeginAlarm, whatever the callbacks call, and EndAlarm.
- Pollers.PollPoller.UpdateChannel: event masks are below 0x8000, which covers the bits Channel sets and the kernel returns; of larger ones the cast to short would lose bits.
- Pollers.EPollPoller.Update: epoll_ctl failures other than those its requirements exclude; the source aborts on them.
- `findCRLF`, `findEOL` and `retrieveUntil` of the buffer: simple searches.
- Codec.RoundTrip: protobuf is not modelled; serializer and parser are parameters, the parser an inverse of the serializer. Callbacks leave the buffer alone, and frames of 2 GiB and more, whose length field wraps, are not covered.
- TcpConnection.TcpConnection.Send: the loop-thread case; calls from other threads, forced close and destruction by the server can drop or reorder data and are not modelled.
- AsyncLogging.FileIsTheLog: lines still in flight when the logger stops stay there; rolling and flushing of the file are not modelled, and a wait may end at any time.
- ThreadPool.TakenInOrder: a pool without threads, which runs everything in place, and exceptions thrown by tasks are not modelled.
- UserManager.UserManager.AddUser: text columns, SQL escaping and 32-bit overflow of ids are not modelled, and a new user comes without friends, as its caller passes it.
- UserManager.UserManager.LoadRelationshipFromDB: a query yields its rows or fails; `QueryResult::Fetch` on a result without rows hands out cleared storage, which the model takes as no rows.
- UserManager.UserManager.LoadUserFromDB: `QueryResult::Fetch` on an empty user table is taken as no rows too.
- Chat history, profile and password updates: they do not touch the graph.
- Sockets, acceptor, connector, HTTP, inspector, RPC channel, chat sessions, message cache, gRPC clients and the Go services: plumbing around the parts above that would add only easy members.
- Formatting of dates, times and log lines: display only.
