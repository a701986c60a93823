# P-Net: a verified model

A Dafny model of the stateful parts of the P-Net PROFINET device stack, with proofs of what those parts
are for. `dafny verify dfyconfig.toml` checks it.

What is modelled, and the main results:

* **Alarm transport** (`AlarmMachine`, `AlarmEffects`, `AlarmWorld`, `AlarmTold`, `AlarmRuns`, `AlarmStale`, `AlarmPriorities`, `AlarmAr`,
  `RingQueue`). The four coupled machines ALPMI, ALPMR, APMS and APMR are functions on a record (`AlarmMachine`).
  `AlarmEffects` states outright, as conditions on the state and the event, what each event sends, what it tells the
  application, and what becomes of every part of the state. `AlarmWorld` joins two such
  ends by FIFO channels that lose and duplicate frames, and shows that in every reachable state each end has
  accepted a prefix of what the other one sent (`AcceptedInOrder`). The 15-bit sequence numbers need frames to be
  less than 0x8000 messages old; this is *proved* from the coupling of the machines, for all runs in which at most
  0x7ffd notifications fail locally. `AlarmStale` proves that bound exact: there is a run with one failure more in
  which a message is confirmed that was never accepted. `AlarmTold` follows what each application is really told: the
  messages of the other end, in order and none twice, and exactly which of them it is not told of. `AlarmRuns` has the histories of one end: bounded
  retransmission, one outstanding notification, when a sender stalls and a receiver is blocked. `AlarmPriorities` has
  both priorities and the application's acknowledgement. `AlarmAr` performs the same steps in place, on both
  priorities with their receive rings, with an account of every buffer: none leaks and none is freed twice, even when
  handling a frame closes the AR.
* **Scheduler** (`WrapTime`, `PendingTimers`, `SlotLists`, `TimerCalls`, `TimerTicks`, `TimerDelays`, `TimerOwners`,
  `TimerArray`, `Scheduler`). Two doubly linked lists in one array, proved against sequences; timers in wrapping 32-bit time. Every call,
  every section of an addition that another thread interrupts, and a whole tick with everything that is called while its
  callbacks run, are functions (`TimerCalls`, `TimerTicks`), and the array code is proved to do the same. Over every run
  each timer is pending, removed or fired, and only one of these (`EveryTimerAccounted`), and a timer fires on the tick that
  its delay asks for, counted from the call (`DelayIsKept`).
* **Cyclic data** (`CycleCounter`, `Ethernet`, `Provider`, `Consumer`, `BufferExchange`, `CyclicData`, `CyclicRuns`). From the
  provider's buffer through the VLAN skip, the frame id dispatch and the consumer's checks to the reading application
  (`LastSetIsRead`); over whole runs in which frames are lost and other stations send as well, what is read and when the
  consumer accepts frames again (`ReadsAsLastAccepted`, `RecoversAfterLoss`); the data hold watchdog, the cycle counter, and the buffer exchange between
  two threads.
* **LLDP** (`Lldp`, `LldpPackets`, `LldpPeers`, `LldpFrames`, `Bytes`). The parser as a function on octets, the printer, the
  round trip, unknown TLVs; the octets that are sent and the record that is kept of any peer; and the loops over a buffer with a 16-bit position, proved against these functions.
* **Application AR list** (`ArList`). An array with a terminator, deletion during iteration and deferred compaction.

Operations that change state are class methods or loops over arrays; their contracts name functions of the old
state, and the properties are proved of these functions. Inputs from outside a component (whether a buffer
could be allocated, whether a send or a timer start succeeded, the time, what a callback does) are
parameters; a mutex is a step boundary.

Where the code departs from its documentation or from what one would expect, the model follows the code, and a lemma
states the fact:

* The application's alarm acknowledgement always goes to the high priority instance, so an indicated notification can
  be acknowledged if and only if it has high priority, and the next low priority one aborts the AR
  (`AcknowledgedOnlyIfHigh`, `NextLowNotificationAborts`).
* A data request while APMS is not open aborts, and then, and only then, its second negative confirmation works on an
  AR that the first one has released (`RequestOnReleasedAr`).
* When no buffer can be allocated for a new message, APMS waits for a TACK that cannot come and its timers do nothing;
  the next request aborts (`AllocationFailureStalls`, `TimersNeverEndStall`).
* After a notification that does not parse, APMR refuses every DATA frame until the AR closes, and on the low priority
  each one also makes the high priority wait (`BlockedUntilClosed`, `BlockedQueueEndsBadly`).
* An accepted message whose TACK cannot be sent is confirmed later and never handed to the user (`HandedUpExactly`,
  `HandedUpWithoutFailures`).
* The marker -1 for "no frame yet" acts like the counter 0xffff, so a first frame with a counter of 61440 or more is
  rejected (`FirstFrame`); an interval above 61440 makes the consumer reject the provider's frames
  (`ProviderStaysNewer`), and the largest one stops the counter (`LargestIntervalStalls`).
* The position of the data in a received buffer is stored outside the lock, so an application can read with the
  position of another frame; this can happen exactly if frames carry VLAN tags (`TearsExactlyIfTagged`).
* A removal keeps the scheduler's lists if and only if it does not hit the slot of an addition that another thread has
  not finished (`Scheduler.Remove`). A handle that was not reset after its timer fired can do that (`StaleHandle`); the free
  list then ends up as the tail of the busy list, and all free slots are lost (`SlotsLost`). It cannot happen to clients that
  keep to one timer and reset their handles (`OwnedIsClear`).
* Reception compares nothing with the length of the payload: it reads behind the end if and only if all types up to it are
  VLAN, or the first other one is Profinet and is the last thing in it (`ReceptionPastEnd`). A frame id that is added twice
  stays registered when it is removed once (`AddDecides`, `RemoveDecides`).
* An organizationally specific TLV of less than 4 octets has its header completed by what follows, and fails the packet
  unless that happens to be an unknown header (`ShortOrgSpecificInPacket`).
* The length of a TLV is passed as 8 bits when it is printed, so a port ID of 255 octets is sent with length zero
  (`PortRoundTrip`).

## Model

| member | source | states |
|---|---|---|
| AlarmMachine.StepShape | src/common/pf_alarm.c:849-1966 | every event changes a sequence counter pair only by confirming or accepting, ends APMS closed, waiting with the new or the old saved frame, open, or as it was, and emits only frames that carry the current or saved numbers |
| AlarmMachine.ReceiveShape | src/common/pf_alarm.c:1783-1966 | the same for a received frame, including a TACK on a DATA frame and the counters that move before the reply is sent |
| AlarmMachine.AbortCloses | src/common/pf_alarm.c:330-351 | a received frame closes an open instance if and only if it makes the transport report an abort |
| AlarmMachine.CreditStep | src/common/pf_alarm.c:514-682 | ALPMI and ALPMR start a message only at the price of a credit that only an accepted message earns, except for a notification that fails locally |
| AlarmMachine.NackOnlyOutOfStep | src/common/pf_alarm.c:1783-1966 | no NACK answers a frame with the expected number or the one before it |
| AlarmMachine.RequestOnReleasedAr | src/common/pf_alarm.c:1491-1508 | a data request aborts, and goes on with an AR that has been released, if and only if APMS is not open |
| AlarmEffects.UpsExactly | src/common/pf_alarm.c:514-682 | all that a received frame gives to the layer above, in order: the confirmed acknowledgement, the notification or confirmation that it carries, and the abort, each under its own condition |
| AlarmEffects.ToldExactly | src/common/pf_alarm.c:1783-1966 | a notification is indicated once, with the data of the frame, if and only if the frame is accepted, its TACK can be sent, the body parses and ALPMR waits for one; a status is confirmed once if and only if ALPMI waits for it; an acknowledgement is confirmed if and only if the frame is its TACK; an abort is reported if and only if the frame is an ERR frame, of an unknown kind, or a notification too many |
| AlarmEffects.WireExactly | src/common/pf_alarm.c:1783-1966 | a TACK answers exactly the frames with the expected number or the one before, a NACK exactly those with another number, and an abort sends the ERR frame on the low priority; with which numbers |
| AlarmEffects.WireOfLocalEvent | src/common/pf_alarm.c:849-1679 | requests, timers and close send exactly a new message, the saved one again, or the ERR frame, and when |
| AlarmEffects.ClosesExactly | src/common/pf_alarm.c:330-351 | a received frame closes an open instance if and only if it is an ERR frame, of an unknown kind, or a notification too many |
| AlarmEffects.LocalEventCloses | src/common/pf_alarm.c:1576-1679 | another event closes it if and only if it is a close, the last timer of a message, or a request while APMS is not open |
| AlarmEffects.NextStatesExactly | src/common/pf_alarm.c:514-682 | what becomes of ALPMI and ALPMR in every event that leaves the instance open |
| AlarmEffects.TransportExactly | src/common/pf_alarm.c:849-1556 | which frame is saved, how many timers live, whether the handle knows one, and how many retries are left after every event |
| AlarmEffects.ReceivedExactly | src/common/pf_alarm.c:1783-1966 | the return value, and APMS and APMR, after every received frame: APMR stays in WCNF exactly when an answered frame cannot be delivered |
| AlarmEffects.LocalExactly | src/common/pf_alarm.c:1491-1556 | a request succeeds if and only if it starts a message that is sent and timed |
| AlarmWorld.SeqAlias | src/common/pf_alarm.c:1491-1556 | two message indices have the same 15-bit number exactly if they differ by a multiple of 0x8000, apart from the initial value |
| AlarmWorld.OwnKept | src/common/pf_alarm.c:1104-1556 | every step keeps the numbers, the saved frame and all frames in flight consistent with the history of sent and confirmed messages |
| AlarmWorld.FreshFetch | src/common/pf_alarm.c:1104-1187 | a fresh frame confirms only what the peer accepted, and is accepted only in turn and with the body that was sent |
| AlarmWorld.BreaksExactly | src/common/pf_alarm.c:1104-1187 | a frame makes an end take a message for delivered that was not accepted if and only if it can confirm, nothing else is left to be confirmed, and its age is a multiple of 0x8000 |
| AlarmWorld.RecentIsFresh | src/common/pf_alarm.c:1104-1187 | between coupled ends a frame in flight is at most two messages old, and one more for each notification that failed |
| AlarmWorld.AcceptedInOrder | src/common/pf_alarm.c:1104-1966 | over every run with lossy, duplicating FIFO channels and at most 0x7ffd failed notifications, accepted messages are a prefix of those sent, in both directions, and send_seq_count is exp_seq_count or exp_seq_count_o with a TACK pending |
| AlarmWorld.AcceptedInOrderIfFresh | src/common/pf_alarm.c:1104-1966 | the same over runs with any number of failures, if no fetched frame is 0x8000 messages old |
| AlarmWorld.NeverNacks | src/common/pf_alarm.c:1736-1763 | in such a run no frame that either end receives is answered with a NACK |
| AlarmTold.LostExactly | src/common/pf_alarm.c:1828-1903 | the application is told of an accepted message if and only if its TACK can be sent and ALPMI or ALPMR waits for it |
| AlarmTold.ToldInOrder | src/common/pf_alarm.c:1783-1966 | in every run with at most 0x7ffd failed notifications, what each application is told are messages of the other end, in the order and with the data in which they were sent, and none twice |
| AlarmTold.HandedUpExactly | src/common/pf_alarm.c:1817-1966 | in such a run both applications have been told of all that was accepted if and only if every accepted frame could be answered and was waited for |
| AlarmTold.HandedUpWithoutFailures | src/common/pf_alarm.c:1817-1966 | if no notification fails, every accepted frame is waited for, so both applications have been told of all that was accepted if and only if every reply to an accepted frame could be sent |
| AlarmStale.ExactBound | src/common/pf_alarm.c:1104-1187 | a bound on failed notifications makes all runs deliver in order if and only if it is at most 0x7ffd |
| AlarmStale.StaleRunConfirmsUnaccepted | src/common/pf_alarm.c:1104-1187 | a run with exactly 0x7ffe failed notifications, in each of which a TACK cannot be sent either, in which a message is confirmed that the peer never accepted |
| AlarmStale.ManyRounds | src/common/pf_alarm.c:1104-1966 | any number of messages with a failed timer start each are confirmed while the peer waits for its own TACK, and leave its saved frame as it was |
| AlarmRuns.BoundedRetransmission | src/common/pf_alarm.c:849-954 | over every run, with any timers and frames, each message is on the wire at most 1 + rta_retries times, as the identical frame |
| AlarmRuns.GivesUpOnlyWhenExhausted | src/common/pf_alarm.c:849-954 | a timer makes the sender give up if and only if the message is unconfirmed and the retry counter is spent, after 1 + rta_retries attempts |
| AlarmRuns.RetriesThenGivesUp | src/common/pf_alarm.c:849-954 | a sender that has not stalled gives up at exactly the (resend + 1)-th timer event if the timer can be started again each time, and waits with the same frame until then |
| AlarmRuns.OneNotificationOutstanding | src/common/pf_alarm.c:2294-2341 | until close, notifications sent minus confirmations given is 1 while ALPMI is in W_ACK and 0 otherwise |
| AlarmRuns.AllocationFailureStalls | src/common/pf_alarm.c:1232-1556 | a message that is started with nothing saved leaves APMS waiting with nothing to retransmit if and only if no buffer could be allocated |
| AlarmRuns.TimersNeverEndStall | src/common/pf_alarm.c:849-954 | however many timers fire after that, nothing is sent and no failure is reported |
| AlarmRuns.BlockedExactly | src/common/pf_alarm.c:1863-1902 | APMR goes to WCNF and stays there if and only if the accepted and answered frame holds a notification that does not parse |
| AlarmRuns.BlockedUntilClosed | src/common/pf_alarm.c:1783-1966 | from then on, until the AR closes, it accepts nothing and refuses every DATA frame without a reply |
| AlarmPriorities.AcknowledgedOnlyIfHigh | src/common/pf_alarm.c:3004-3057 | an indicated notification can be acknowledged by some run of both priorities and the application if and only if it has high priority |
| AlarmPriorities.NextLowNotificationAborts | src/common/pf_alarm.c:625-682 | after any such run, the next low priority notification closes both priorities |
| RingQueue.StoreAppends | src/common/pf_alarm.c:2440-2459 | storing at the write index appends to the items and keeps the filled slots exactly the live window |
| RingQueue.ClearRemoves | src/common/pf_alarm.c:2472-2491 | clearing the slot at the read index removes the oldest item and keeps the filled slots exactly the live window |
| RingQueue.RingQueue.Post | src/common/pf_alarm.c:2538-2573 | the queue is a bounded FIFO: posting appends, unless it is full |
| RingQueue.RingQueue.Fetch | src/common/pf_alarm.c:2582-2608 | fetching takes the oldest item; the send queues work alike |
| AlarmAr.AlarmAr.constructor | src/common/pf_alarm.c:2770-2794 | activation: both priorities open, empty queues, no buffer owned |
| AlarmAr.AlarmAr.Transmit | src/common/pf_alarm.c:1232-1467 | a frame is built in a new buffer, which is saved for retransmission or freed, on every path |
| AlarmAr.AlarmAr.Close | src/common/pf_alarm.c:2796-2827 | the ERR frame, then both priorities as the machine closes; every owned buffer is freed |
| AlarmAr.AlarmAr.CloseQueue | src/common/pf_alarm.c:1639-1676 | the buffers in a receive ring are freed, each once, and the ring is empty |
| AlarmAr.AlarmAr.SendData | src/common/pf_alarm.c:1491-1556 | refines the machine's DATA request, with the account of buffers kept |
| AlarmAr.AlarmAr.AckIndication | src/common/pf_alarm.c:1104-1187 | refines the machine's handling of a TACK; the saved buffer is freed exactly when it is confirmed |
| AlarmAr.AlarmAr.TimerFired | src/common/pf_alarm.c:849-954 | refines the machine's timeout |
| AlarmAr.AlarmAr.DataIndication | src/common/pf_alarm.c:1783-1966 | refines the machine's handling of a DATA frame, on both priorities if it aborts |
| AlarmAr.AlarmAr.HandleNext | src/common/pf_alarm.c:2073-2278 | the oldest queued frame is handled as the machine prescribes and its buffer is freed, even if handling it closed the AR |
| AlarmAr.AlarmAr.DrainQueue | src/common/pf_alarm.c:2073-2278 | the queue is handled in order, each frame on the state the one before left, up to the end, a close or a failure; all that was sent and indicated is what these steps yield |
| AlarmAr.AlarmAr.ApmrPeriodic | src/common/pf_alarm.c:2073-2278 | the low priority first, then the high one from the state that this left, or not at all after a failure; no buffer is lost |
| AlarmAr.BlockedQueueEndsBadly | src/common/pf_alarm.c:2073-2278 | while APMR is in WCNF, a DATA frame at the head of the queue ends the loop over both queues |
| AlarmAr.AlarmAr.FrameHandler | src/common/pf_alarm.c:740-823 | a frame is queued, and with it its buffer, or the caller keeps the buffer |
| AlarmAr.AlarmAr.SendNotification | src/common/pf_alarm.c:2294-2341 | refines the machine's notification request |
| AlarmAr.AlarmAr.SendAlarmAck | src/common/pf_alarm.c:3004-3057 | refines the machine's acknowledgement, on the high priority |
| AlarmAr.AlarmAr.AlmpiPeriodic | src/common/pf_alarm.c:2721-2750 | at most one alarm leaves, the oldest of its queue, and a low priority one only if the high priority has none to send or waits for an acknowledgement |
| WrapTime.SDiffInWindow | src/common/pf_scheduler.c:336-379 | within 2^31 us of a base, the signed 32-bit difference is the difference of the distances, so a total preorder |
| WrapTime.ExpiredExact | src/common/pf_scheduler.c:444-481 | a deadline is taken as reached exactly when it is, across any wrap, within 2^31 us |
| WrapTime.DelayRounding | src/common/pf_scheduler.c:605-642 | one tick up to 1.5 cycles, otherwise at least two and within half a cycle of the wanted delay; nothing wraps |
| WrapTime.DelayMonotone | src/common/pf_scheduler.c:605-642 | a longer wanted delay never gives a shorter one |
| WrapTime.HugeDelayIsOneTick | src/common/pf_scheduler.c:605-642 | a delay above 100 s counts as one tick |
| WrapTime.FiresOnTick | src/common/pf_scheduler.c:444-481 | a timer added on a tick fires on exactly the n-th following one, for jitter from minus half a cycle, and the bounds are tight, for ticks less than 2^31 us from the deadline |
| WrapTime.TicksExactly | src/common/pf_scheduler.c:605-642 | the time of a sanitized delay is n ticks less half a tick exactly for the n that is nearest to the delay, and 1 up to a tick and a half and above 100 s |
| WrapTime.TickIsNear | src/common/pf_scheduler.c:605-642 | every tick up to the n-th is that near if the cycle is below 2^30 us |
| PendingTimers.InsertKeepsSorted | src/common/pf_scheduler.c:336-379 | insertion keeps the order, behind all earlier and in front of all equal deadlines, and moves no other timer |
| PendingTimers.DueIsFirst | src/common/pf_scheduler.c:454-457 | in a sorted list the timers that are due are those at the front, so looking at the head decides |
| PendingTimers.FiredJoin | src/common/pf_scheduler.c:444-481 | of the timers there were before, what one round and the rounds after it fire together is what was due and has not been removed |
| PendingTimers.LeftJoin | src/common/pf_scheduler.c:444-481 | what they leave of the timers that were pending is all but the fired and the removed, in order |
| SlotLists.Unlink | src/common/pf_scheduler.c:55-97 | the slot leaves the doubly linked list, whose remaining links stay mutually inverse |
| SlotLists.LinkBefore | src/common/pf_scheduler.c:158-221 | the slot enters the list before the given one |
| SlotLists.LinkAfter | src/common/pf_scheduler.c:99-156 | the slot enters the list after the given one |
| SlotLists.IsLinked | src/common/pf_scheduler.c:33-53 | true exactly if the slot is on the list |
| SlotLists.DistinctBound | src/common/pf_scheduler.c:33-53 | a list visits no slot twice, so it is no longer than the array |
| SlotLists.LinkedList | src/common/pf_scheduler.c:99-221 | what four link updates make of a list |
| TimerCalls.ApplySound | src/common/pf_scheduler.c:299-442 | every call, and every section of an addition that another thread interrupts, keeps each slot in one place, and loses no timer but those that it removes, which have the name of its handle |
| TimerCalls.AddInSections | src/common/pf_scheduler.c:299-384 | an addition that is not interrupted is its sections in a row |
| TimerTicks.TickFires | src/common/pf_scheduler.c:444-481 | for any clients, with additions that begin before the tick or end after it: of the timers that were pending, those that were due fire once each, in list order, except those removed before; all others are still there, in order; nothing fires that is not due, and nothing due is left |
| TimerTicks.TickAccounts | src/common/pf_scheduler.c:444-481 | a timer that becomes pending during the tick fires once, or is removed, or stays, too |
| TimerTicks.EveryTimerAccounted | src/common/pf_scheduler.c:299-481 | over every run of calls and ticks from the start, each timer that was ever pending is pending, or was removed, or has fired, and only one of these; none fires twice |
| TimerTicks.PromptTickFires | src/common/pf_scheduler.c:444-481 | if no addition ends during the tick with a deadline that is reached already, exactly the timers that were due and not removed before fire, in list order |
| TimerTicks.LaterIsPrompt | src/common/pf_scheduler.c:605-642 | that holds of every addition that reads the clock at or after the time of the tick |
| TimerTicks.TickRemoves | src/common/pf_scheduler.c:386-442 | every timer that a tick loses otherwise was removed by a Remove or Restart that ran meanwhile, through a handle of its name |
| TimerTicks.TickWithoutRemovals | src/common/pf_scheduler.c:444-481 | if nothing is removed or restarted meanwhile, and additions are prompt, exactly the due timers fire and all others stay |
| TimerTicks.RoundIsReady | src/common/pf_scheduler.c:444-481 | every round leaves less of what is called, or, when nothing is, fewer timers due, so the tick terminates; and the next round finds the list in order |
| TimerTicks.ClearCanTick | src/common/pf_scheduler.c:444-481 | if no handle hits the slot of an unfinished addition before the tick, and meanwhile only whole calls are made, none ever does |
| TimerTicks.StaleHandleHits | src/common/pf_scheduler.c:386-442 | after a timer has fired whose handle was not reset, and another addition has got its slot, a removal through the handle hits that addition if and only if the names are the same |
| TimerDelays.AddedForDelay | src/common/pf_scheduler.c:299-384 | an addition or a restart adds one timer if and only if a slot is free for it, and its deadline is half a tick before as many ticks after the clock as the delay asks for |
| TimerDelays.LinkedForDelay | src/common/pf_scheduler.c:331-384 | so does an addition in sections, whatever others call between the filling of the slot and its linking |
| TimerDelays.FiresOnItsTick | src/common/pf_scheduler.c:444-481 | over every run of calls and ticks, a timer due on the n-th tick after its clock is fired by none of the n-1 ticks before, and has fired by the n-th if and only if it was not removed |
| TimerDelays.DelayIsKept | src/common/pf_scheduler.c:299-481 | the same from the call on: from the delay asked for to the tick that fires the timer |
| TimerOwners.OnlyOwnTimer | src/common/pf_scheduler.c:249-268 | for clients with one timer each, every call affects exactly the caller's own timer; a restarted handle runs, with the new deadline, if it was running or a slot is free |
| TimerOwners.TargetIsOwn | src/common/pf_scheduler.c:386-442 | for such clients a removal finds a timer if and only if the handle runs, and it is the handle's own, although names are shared and slots reused |
| TimerOwners.OneTimerPerHandle | src/common/pf_scheduler.c:223-268 | for such clients a handle runs exactly while a timer of its own is pending, and no two timers share a handle |
| TimerOwners.OwnedIsClear | src/common/pf_scheduler.c:386-442 | such clients never hit the slot of an unfinished addition |
| TimerOwners.TickKeepsOwned | src/common/pf_scheduler.c:444-481 | if each callback first resets or reuses its own handle, the discipline holds after the tick, and every timer removed was removed through its owner's handle |
| Scheduler.Scheduler.constructor | src/common/pf_scheduler.c:270-297 | no timer is pending and all slots are free |
| Scheduler.LinkSorted | src/common/pf_scheduler.c:336-379 | the scan over the busy list links the slot where Insert puts the timer |
| Scheduler.Scheduler.TakeFree | src/common/pf_scheduler.c:314-328 | the first locked section of an addition: a slot leaves the free list, or there is none; each slot is still in one place only |
| Scheduler.Scheduler.LinkBusy | src/common/pf_scheduler.c:336-381 | the second locked section: the taken slot joins the busy list in its place; each slot is still in one place only |
| Scheduler.Scheduler.Add | src/common/pf_scheduler.c:299-384 | refines the addition of TimerCalls, on any handle, and leaves other threads' unfinished additions alone; the new timer is due on the tick that the delay asks for |
| Scheduler.Scheduler.Remove | src/common/pf_scheduler.c:386-442 | keeps the lists if and only if the handle does not hit the slot of an unfinished addition, and then refines the removal of TimerCalls; otherwise the slot is on the free list and taken at once, and both lists are otherwise as they were |
| Scheduler.StaleHandle | src/common/pf_scheduler.c:299-481 | a run of calls by two handles of one name in which a removal would hit the slot of an unfinished addition |
| Scheduler.SlotsLost | src/common/pf_scheduler.c:336-442 | if the removal is made there and the addition goes on, the lists are spoiled: the slot is on both, and all other slots are lost |
| Scheduler.LinkRemoved | src/common/pf_scheduler.c:336-381 | when that addition goes on, the free list leads along the busy list from the new timer on, and no free slot is reached any more |
| Scheduler.Scheduler.Do | src/common/pf_scheduler.c:249-384 | each call, restart included, and each section of an addition has exactly the effect of TimerCalls.Apply on pending timers, free and taken slots and handles |
| Scheduler.Scheduler.Tick | src/common/pf_scheduler.c:444-481 | a tick over sorted timers within one window, with callbacks and other threads that use any handles as often as they like meanwhile, fires what TimerTicks.Tick fires, calls the owners in that order, and leaves its state |
| CycleCounter.Advance | src/common/pf_ppm.c:1031-1048 | the next counter is between 1 and the interval ahead of the previous one |
| CycleCounter.ProviderStaysNewer | src/common/pf_cpm.c:181-193 | the consumer takes the provider's next counter, from every value, if and only if the interval is at most 61440 |
| CycleCounter.RejectedWindow | src/common/pf_cpm.c:181-193 | after accepting c, exactly the 4096 values c - 4095 .. c are rejected |
| CycleCounter.FirstFrame | src/common/pf_cpm.c:181-193 | a first frame is taken only with a counter below 61440 |
| CycleCounter.LargestIntervalStalls | src/common/pf_ppm.c:1031-1048 | with the interval 65536 the counter stays at 0 and its frames are rejected |
| CycleCounter.SentIsMultiple | src/common/pf_ppm.c:1031-1048 | when the interval divides 65536, the n-th counter from 0 is n times the interval, modulo 65536 |
| CycleCounter.NextNewer | src/common/pf_cpm.c:181-193 | the next counter is accepted if and only if the total advance since the last accepted one, modulo 65536, is from 1 to 61440 |
| CycleCounter.RejectedInARow | src/common/pf_cpm.c:181-193 | k frames that all arrive can be rejected in a row if and only if k - 1 intervals are at most 4095 |
| Ethernet.SkipVlanTags | src/common/pf_eth.c:208-218 | the loop stops at the first type that is not VLAN, or goes on behind the payload |
| Ethernet.ReadsPastExactly | src/common/pf_eth.c:208-218 | the latter if and only if every type up to the end is VLAN |
| Ethernet.TagsAreSkipped | src/common/pf_eth.c:208-218 | any number of tags is skipped |
| Ethernet.Dispatch | src/common/pf_eth.c:222-246 | the handler of the first entry in use for the frame id, or none |
| Ethernet.ReceiveFrame | src/common/pf_eth.c:197-264 | a Profinet frame goes to the handler of its frame id, with the position behind its tags, unless the payload is too short for that |
| Ethernet.ReceptionPastEnd | src/common/pf_eth.c:197-264 | reception reads behind the end of the payload if and only if every type up to the end is VLAN, or the first other one is Profinet and no frame id fits behind it |
| Ethernet.HandledBehindTags | src/common/pf_eth.c:197-264 | a payload goes to a handler if and only if, behind any number of VLAN tags, it carries the Profinet type and a frame id that is in use for that handler, whose position is given |
| Ethernet.Add | src/common/pf_eth.c:266-297 | the first unused entry is taken, or none |
| Ethernet.AddDecides | src/common/pf_eth.c:266-297 | the id goes to the new handler if and only if an unused entry comes before any that it has; all others keep theirs; the ids stay unique if and only if it had none or the map is full |
| Ethernet.Remove | src/common/pf_eth.c:299-320 | the first entry of the id is cleared |
| Ethernet.RemoveDecides | src/common/pf_eth.c:299-320 | the id has no handler any more if and only if it had at most one entry; all others keep theirs |
| Provider.Ppm.constructor | src/common/pf_ppm.c:229-286 | the header is in the frame, and data and counter start at zero |
| Provider.Ppm.FinishBuffer | src/common/pf_ppm.c:182-212 | the frame is header, data, zeros up to the C-SDU length, the next counter and the status bytes |
| Provider.Ppm.SetDataAndIops | src/common/pf_ppm.c:503-584 | the data bytes, if any, and the status are at the subslot's descriptor and nothing else is changed, or nothing at all if the subslot or a length is wrong, which the result tells |
| Provider.Ppm.SetIocs | src/common/pf_ppm.c:586-659 | the consumer status is at the descriptor and nothing else is changed, or nothing at all |
| Provider.CallsAreWrites | src/common/pf_ppm.c:503-659 | any sequence of calls amounts to one sequence of writes, of which the refused calls are no part |
| Provider.CallSets | src/common/pf_ppm_driver_sw.c:126-182 | a call leaves in each part that it gives a value to exactly that value, and every other byte as it was; a refused call changes nothing |
| Provider.LastSetStays | src/common/pf_ppm.c:503-659 | after any calls every part of every descriptor holds the value that an accepted call gave to it last, and zeros if there was none; a call without data bytes gives no data |
| Provider.FindDesc | src/common/pf_ppm.c:427-501 | the first descriptor in use for the subslot |
| Provider.FirstDesc | src/common/pf_cpm.c:324-396 | it is in use for the subslot and none before it is; none is found only if there is none |
| Provider.PartsHoldLastWritten | src/common/pf_ppm_driver_sw.c:126-182 | whatever is written in any order, every part holds the bytes last written to it |
| Consumer.Consumer.DataIndication | src/common/pf_cpm_driver_sw.c:257-400 | accepts exactly frames with transfer status 0, the right source and length, a newer counter and valid data; swaps the buffer, reloads dht, and gives back the buffer to free |
| Consumer.TakenByOctets | src/common/pf_cpm_driver_sw.c:294-356 | on the octets alone: a frame from another source, of another length without tags, with a transfer status, without valid data or with a stale counter changes nothing and is given back; any other one is the new buffer |
| Consumer.BuffersBalance | src/common/pf_cpm_driver_sw.c:184-400 | of the buffers held and the one received each is held or given back afterwards, and none is doubled |
| Consumer.Consumer.PutBuf | src/common/pf_cpm_driver_sw.c:184-194 | the new buffer replaces the previous one, which comes back |
| Consumer.Consumer.ControlIntervalExpired | src/common/pf_cpm_driver_sw.c:46-116 | counts dht, or stops the consumer when the hold time has passed; it aborts if and only if it goes on and the timer cannot be started again |
| Consumer.Consumer.GetDataAndIops | src/common/pf_cpm_driver_sw.c:444-491 | the newest buffer becomes the application's, and exactly the descriptor's bytes are copied; or nothing changes |
| Consumer.StepKeepsConsistent | src/common/pf_cpm_driver_sw.c:46-388 | frames, expiries and reads keep the consumer consistent; in particular dht never exceeds data_hold_factor while it runs |
| Consumer.WatchdogCounts | src/common/pf_cpm_driver_sw.c:46-116 | without an acceptable frame, the consumer runs while the expiries fit into the hold time and stops after that |
| Consumer.StopsExactlyAtHoldTime | src/common/pf_cpm_driver_sw.c:284-388 | from an accepted frame on, it stops exactly at the (data_hold_factor + 1)-th expiry unless another frame is accepted |
| BufferExchange.ExchangeIsSafe | src/common/pf_cpm_driver_sw.c:184-237 | over every interleaving, the buffers held are distinct, the one being copied is never freed or replaced, a get yields the latest put, and the new flag is set exactly if there was one |
| BufferExchange.NothingLeaks | src/common/pf_cpm_driver_sw.c:184-400 | over every interleaving a buffer that was put is freed if and only if nobody holds it any more |
| BufferExchange.QuietReadIsWhole | src/common/pf_cpm_driver_sw.c:205-491 | an application that gets between two receptions copies the latest buffer from where its data starts |
| BufferExchange.TearsExactlyIfTagged | src/common/pf_cpm_driver_sw.c:344-396 | some interleaving reads at a position that is not its buffer's if and only if a frame is tagged |
| CyclicData.FoundBehindTag | src/common/pf_eth.c:197-246 | the provider's frame passes the VLAN skip and goes to the handler that is registered for its frame id |
| CyclicData.HeaderFields | src/common/pf_ppm.c:135-180 | the header holds both addresses, the VLAN tag with priority and VLAN id in their bits, the Profinet type and the frame id |
| CyclicData.HandledIsDelivered | src/common/pf_eth.c:222-246 | a payload that is handled without a read behind its end is long enough for the consumer |
| CyclicData.FinishedFrameAccepted | src/common/pf_cpm_driver_sw.c:295-340 | the matching consumer accepts a finished frame exactly if its counter is newer and its data valid |
| CyclicData.LastWrittenIsRead | src/common/pf_cpm_driver_sw.c:257-491 | the next frame passes the VLAN skip and the dispatch, is accepted, and every part that is read is the one last written at the provider |
| CyclicData.LastSetIsRead | src/common/pf_ppm.c:503-659 | for any sequence of calls: the next frame is accepted, and in it every part reads as the bytes of the last accepted call that gave it a value, or zeros |
| CyclicData.PastInLengthIsZero | src/common/pf_ppm.c:182-212 | data beyond in_length leaves as zeros |
| CyclicRuns.AcceptedExactly | src/common/pf_cpm_driver_sw.c:257-388 | at any point of any run with lost frames, the next frame, if it arrives, is accepted if and only if the consumer runs, the data is valid, and the counter has advanced by 1 to 61440, modulo 65536, since the last accepted frame |
| CyclicRuns.AcceptedByCount | src/common/pf_cpm.c:181-193 | when the interval divides 65536, so exactly if the number of frames sent since then times the interval is in that range |
| CyclicRuns.RecoversAfterLoss | src/common/pf_cpm.c:181-193 | however many frames were lost, at most 4095 / interval + 1 valid frames in a row are rejected once they arrive again |
| CyclicRuns.StrayIgnored | src/common/pf_cpm_driver_sw.c:305-318 | a frame that another station sends, or with a transfer status, without valid data or of another length, leaves the consumer as it was |
| CyclicRuns.ReadsAsLastAccepted | src/common/pf_cpm_driver_sw.c:257-491 | after any run of calls, lost, rejected and accepted frames, frames of other stations, expiries and reads, every part that is read is the value given to it last by the calls before the last accepted frame was sent |
| Lldp.TlvExtends | src/common/pf_lldp.c:1613-1749 | the meaning of a complete TLV does not depend on what follows it |
| Lldp.TlvTakesHeader | src/common/pf_lldp.c:1633-1748 | every round gets past its TLV header, even when the parser moves backwards |
| LldpPackets.IgnorableMakesNoDifference | src/common/pf_lldp.c:1633-1748 | a TLV of unknown type, or of unknown organization or subtype and length at least 4, between complete TLVs does not change the result |
| LldpPackets.ShortOrgSpecific | src/common/pf_lldp.c:1676-1735 | a shorter one is skipped if and only if, with what follows, it shows an unknown header; otherwise it fails |
| LldpPackets.ShortOrgSpecificInPacket | src/common/pf_lldp.c:1633-1748 | between complete TLVs it changes nothing, or fails the packet, by the same condition |
| LldpPackets.PortRoundTrip | src/common/pf_lldp.c:289-301 | a port ID TLV is read back if and only if the ID has at most 254 octets |
| LldpPackets.ManagementRoundTrip | src/common/pf_lldp.c:1408-1455 | an IPv4 management address is read back with its interface number |
| LldpPackets.RoundTrip | src/common/pf_lldp.c:979-1047 | parsing a printed payload succeeds and gives exactly the chassis ID, port ID, MAC, link status and IPv4 address printed, TTL 20 and zero port status |
| LldpPackets.SentFrameIsRead | src/common/pf_lldp.c:979-1047 | the same from behind the Ethernet header of the frame, which fits the buffer |
| LldpPeers.FrameOctets | src/common/pf_lldp.c:979-1047 | the frame octet by octet: LLDP multicast address, source, Ethertype 0x88cc, and the TLVs with literal headers |
| LldpPeers.PeerIsRead | src/common/pf_lldp.c:1613-1749 | from a packet with every kind of TLV, written out in octets, each field of the record is what the peer wrote: names, time to live, description, address, the five delays in their places, port status, MAC address and link status |
| LldpPeers.DelayIsRead | src/common/pf_lldp.c:1468-1487 | the five delays of a delay TLV are kept, each in its place |
| LldpPeers.StatusIsRead | src/common/pf_lldp.c:1504-1519 | the four octets of a port status TLV are kept, whatever they are |
| LldpPeers.DescriptionIsRead | src/common/pf_lldp.c:1363-1388 | a description of up to 59 octets is kept and a longer one skipped |
| LldpPeers.AnyIdIsRead | src/common/pf_lldp.c:1225-1316 | a name that fits is kept with its subtype; of a longer one only the length |
| LldpPeers.AddressIsRead | src/common/pf_lldp.c:1408-1448 | an IPv4 address is kept with its interface number; one of another family is skipped with its object identifier |
| LldpPeers.UnusableAddressIsSkipped | src/common/pf_lldp.c:1408-1432 | a management address of unusable length is skipped by the length of its TLV, and an empty TLV takes nothing |
| LldpPeers.WrongLengthFails | src/common/pf_lldp.c:1468-1601 | a known organizationally specific TLV of another length than its own fails the packet |
| LldpPeers.WrongTtlFails | src/common/pf_lldp.c:1330-1349 | so does a time to live of another length than 2 |
| LldpFrames.Parser.GetMem | src/device/pf_block_reader.c:38-69 | reads inside the buffer or sets end-of-input; the first error is kept |
| LldpFrames.Parser.GetUint16 | src/device/pf_block_reader.c:99-119 | two octets in network byte order, or an error |
| LldpFrames.Parser.GetOrgSpecific | src/common/pf_lldp.c:1676-1735 | the value of an organizationally specific TLV; one that is unknown is skipped from its start, also backwards |
| LldpFrames.Parser.GetManagement | src/common/pf_lldp.c:1408-1455 | the management address, or the address kept before when the length is unusable or the address is not IPv4 |
| LldpFrames.Parser.ParsePacket | src/common/pf_lldp.c:1613-1749 | for every input of a frame's size the loop terminates, reads only inside the buffer, and yields what Parse says |
| LldpFrames.Printer.PutMem | src/device/pf_block_writer.c:182-202 | all octets or none |
| LldpFrames.Printer.PutUint32 | src/device/pf_block_writer.c:263-284 | as many of the four octets as fit |
| LldpFrames.Printer.ConstructFrame | src/common/pf_lldp.c:979-1047 | the frame of every station fits the buffer and is written whole |
| ArList.HeadIsLive | pn_logger/logger_common.c:120-123 | in a list without holes the first entry is in use exactly if the list has entries |
| ArList.Api.IsConnected | pn_logger/logger_common.c:120-123 | true exactly if the list has an AR |
| ArList.MoveKeepsLive | pn_logger/app_utils.c:105-127 | moving the next used entry into a hole keeps the list |
| ArList.Api.Compact | pn_logger/app_utils.c:105-127 | the list is the same and has no holes |
| ArList.Api.AddArep | pn_logger/app_utils.c:35-52 | the first unused entry is taken, or there is none |
| ArList.Iterator.Next | pn_logger/app_utils.c:88-130 | the next used entry; at the end, the entries are moved together if any was deleted |
| ArList.Iterator.DeleteCurrent | pn_logger/app_utils.c:145-154 | the entry becomes unused and nothing else changes |
| ArList.Api.EventSet | pn_logger/logger_common.c:221-250 | the list stays a hole-free prefix of distinct areps; the event is set on the AR, which is added if asked for and there is room |
| ArList.SetKeepsOthers | pn_logger/logger_common.c:221-250 | every other AR stays where and what it was, and the event is pending afterwards |
| ArList.SetExactly | pn_logger/logger_common.c:221-250 | an event is added to what is pending for the AR, an AR that is not in the list is added if and only if that is wanted, there is room and the arep is a real one, and all else stays |
| ArList.Api.HandleEvent | pn_logger/logger_common.c:1318-1338 | the list stays a hole-free prefix of distinct areps; handled entries and handler calls are those of the specification |
| ArList.HandledExactly | pn_logger/logger_common.c:1318-1338 | an AR is gone if and only if the event was pending and the handler returned true; otherwise only this event is cleared |
| ArList.HandledInOrder | pn_logger/logger_common.c:1318-1338 | the ARs that are left keep their order and none has the event pending |
| ArList.CalledOnce | pn_logger/logger_common.c:1318-1338 | the handler runs exactly once for every AR with the event pending and for no other |
| ArList.CalledInOrder | pn_logger/logger_common.c:1318-1338 | and the calls are in the order of the list |

## Left out

- AlarmWorld.AcceptedInOrder: speaks of one priority; the two priorities share no state except that an abort of one closes both, which AlarmAr models. Both ends are instances of this code; a controller that numbers or acknowledges differently is not covered.
- AlarmAr.AlarmAr.Close: the send queues belong to the AR, and their reset, like the endpoint and frame id bookkeeping, is not modelled; AlmpiPeriodic takes the queues as parameters.
- AlarmAr.AlarmAr.ErrorIndication: CMSU is not part of this model; that it closes the alarm instance is taken from its description (src/common/pf_alarm.c:905-908). The AR is released after that (src/device/pf_cmrpc.c:5243), which clears the closed instance.
- AlarmAr.AlarmAr.SendData: the second negative confirmation (src/common/pf_alarm.c:1507) is given on a released AR and not modelled; RequestOnReleasedAr says when that is.
- AlarmAr.AlarmAr.FrameHandler: the alarm endpoint has been found.
- LldpFrames.Parser.ParsePacket: inputs above 65024 octets, where the 16-bit offset can wrap around, are excluded; a frame is far shorter.
- LldpPackets.RoundTrip: a port ID of 255 octets is excluded; PortRoundTrip shows that its TLV is not read back.
- LldpPackets.RoundTrip: the interface number is the 32-bit pattern, not the signed value.
- Scheduler.Scheduler.Tick: no removal meanwhile hits the slot of an unfinished addition; what happens otherwise is stated at Remove and SlotsLost. Filling a slot is one step. Names are compared as pointers in the source and as values here.
- WrapTime.FiresOnTick: cycles above 0xaaaaaaaa us (47 minutes), where the sum of a cycle and its half wraps, are excluded; ticks 2^31 us or more from the deadline, which need a cycle of 2^30 us or more, are too.
- Provider.Ppm.SetDataAndIops: the search is over the descriptors of one CR, and locks are not modelled.
- Provider.Ppm.SetIocs: likewise.
- Consumer.Consumer.GetDataAndIops: starts from a descriptor that has been found; Provider.FirstDesc is the search.
- ArList.Api.HandleEvent: the handler is a function of the arep, which loses nothing for one call since areps are distinct; a handler that changes the list itself is not covered.
- Byte layout of alarm PDUs, diagnosis summaries and the user's alarm sequence number: a frame is a record of its fields.
- UDP alarm transport: it sends nothing in the source.
- What the parser leaves in the record when it fails, and null buffers.
- Operating system, Ethernet and UDP drivers, files: their results are inputs.
- Rescheduling of cyclic transmission, PPM and CPM after close, redundancy of providers.
- Reading back a provider's own data, IOCS of the consumer, and problem indicators: simple accessors.
- DCP, SNMP, connect and record parsers, logging and configuration: straight-line code that would add only easy members.
