# Verified models of NetDefender's stateful core

NetDefender inspects packets with a handful of long-lived data structures: TCP reassembly buffers, a hierarchical
timing wheel, hash chains of behavioural trackers, a flow table with a TCP state per flow, intrusive lists, and an
alert log. This project models them in Dafny and proves what they keep over whole runs. Code that changes state in
place is modelled as classes and methods with loops; each method is proved against a function on values, and the
properties are proved about those functions.

## The models

**TCP stream reassembly** (`SegmentQueue`, `SeqNumbers`, `StreamModel`, `StreamRuns`, `ArbitraryRuns`, `ByteHistory`,
`WideMerges`, `ArrivalOrder`, `StreamBuffer`). The specification works on unbounded stream offsets: delivered bytes, and an
out-of-order queue whose meaning is a map from offset to byte (the byte of the first list element that covers the
offset). The class `StreamBuffer.Buffer` works on an array and 32-bit sequence numbers and shows that state at every
step. Only the favour-new policy is modelled, the only one the callers select. `StreamRuns` and `ArrivalOrder` are about
the segments of one stream; `ArbitraryRuns` is about any arrivals at all, with conflicting bytes and any sequence
numbers, and `ByteHistory` says which arrival's byte such a run shows at an offset. Results worth knowing:

- A new segment overrides the queue on its own range except when a queued segment starts at or before it and ends
  strictly after it; then the queued bytes stay. The code and the comment "favour new" differ here; the model follows
  the code.
- A segment record holds a 16-bit length while a merge computes a 32-bit one. A merge pass keeps the meaning of the
  queue if and only if every run of touching segments spans at most 65535 bytes. Eleven touching segments of 7000 bytes
  beyond a gap are enough to go over (`ArbitraryRuns.WideMergeLoses`); what stays is the start of the first record, as
  the length keeps its low 16 bits (`WideMerges.FlatMerge`, `WideMerges.WideMergeShows`).
- An in-order arrival drops whole every queued segment that starts before its end. Nothing is lost when the pieces
  are aligned (`ArrivalOrder.OrderIndependence`), and `StreamRuns.OverlapLoses` shows two overlapping arrivals on an
  empty buffer whose bytes do get lost. `StreamRuns.InOrderHolds` says exactly what survives.
- The duplicate test of the insertion walk never succeeds under favour-new, because trimming has already removed every
  segment it could find (`SegmentQueue.NeverDuplicate`).

**Timing wheel** (`WheelMath`, `TimerSpec`, `TimerCalls`, `TimerHandlers`, `TimerRuns`, `TimerRequests`, `WheelState`,
`TimerWheel`). The specification is a map from timer to absolute expiry tick. The number of slots `n` is symbolic, with `n >= 2`, `n * n` above the
largest delay, and `2 * n` at most 2^32 (true of the program's 2<<18). Periodic timers never drift. Handlers may start,
cancel, reset and update timers themselves, with any delays, and every tick is specified for them. On a carry tick level
0 is drained before cursor 1 moves, so a delay of `n` or more asked for in that part comes out a whole lap early
(`TimerWheel.ScheduledOnCarry`, and `TimerWheel.LapLost` for a run in which it happens). A timer that no call and no
handler names is not affected by any of this: over whole runs it fires exactly at its expiry, and a periodic one at
every interval after it (`TimerRuns.FiresAcross`, `TimerRuns.PeriodicAcross`). A timer that is reset or updated, by a
call or by a handler, starts again from there (`TimerCalls.ResetExact`, `TimerRequests.TickAnew`). The clock reads as the elapsed time if
and only if 2^32 ticks, about 49 days, have not passed.

**Behavioural trackers** (`Chains`, `HashChains`, `Trackers`, `AgeingLimits`, `PortScans`, `WindowAlerts`, `FixedWindows`,
`ScanLaws`, `FailureLaws`, `TransferLaws`, `AlertLaws`, `BehavioralDetector`). Port-scan, brute-force and exfiltration trackers in hash chains with fixed windows. Every alert
of a run is determined from the packets alone: the tenth distinct SYN port of a source's window, the fifth failure of a
target's window, the transfer that makes a pair's window suspicious (`AlertLaws.AlertLaw`). The test for internal
addresses compares octets in the order in which a little-endian machine loads them, so 192.168.0.1 counts as external
and 168.192.0.1 does not (`TransferLaws.ExternalOctets`). A detection reads the clock when it starts and
again when it creates a tracker. Ageing cannot be seen in the alerts of a run in which the two readings disagree, or
memory fails, only where a tracker has to be created without ageing too (`Trackers.AgeingInvisible`). Elsewhere it can,
because a tracker that ageing removed is created again at the later reading, or not at all, where the old record would
have been reset: over all runs, agreeing readings and lasting memory are needed (`AgeingLimits.AgeingInvisibleExactly`).

**Flow table and TCP state** (`FlowTable`, `FlowActivity`, `FlowChains`, `TcpSession`, `TcpClosing`). The flow hash is an abstract function of the
directional key. The use count is 16 bits wide: it is the number of held references if and only if that fits, and
65536 packets of one flow that nobody releases take it to zero (`FlowTable.WrapReached`). The buffer towards the server
exists only if the connection passed through SYN_SENT, so a connection picked up at its SYN-ACK never gets one.

**Smaller pieces.** `DnsNames` and `DnsText` decode compressed names (sections 3.1 and 4.1.4 of RFC 1035). A label is copied before
the length of the text is checked, so up to 318 bytes may be stored where callers provide 256; the text stays inside if
and only if no label takes a text of at most 254 bytes beyond 256 (`DnsNames.StoredExact`, `DnsNames.LongLabels`).
`QueueOwnership` is the start-up check that every port queue has one owner; the number of queues of a port is counted in
eight bits over all configured lcores while only the first ones are checked, so a configuration with more lcores than
the check is told about can repeat queues and be accepted (`QueueOwnership.WrappedCountAccepted`). `ListRing` is the
doubly linked list on real nodes. `AlertLog` is the bounded alert list; a limit of 0 keeps one alert. `Options`,
`Sequences` and `Words` are shared helpers.

## Model

| member | source | states |
|---|---|---|
| SegmentQueue.InsertMeaning | src/stream_reassemble.c:418-519 | trimming and sorted insertion turn the offset-to-byte map into the old map overridden by the new segment on its range, unless a queued segment dominates it |
| SegmentQueue.NeverDuplicate | src/stream_reassemble.c:277-293 | after favour-new trimming the walk never meets a segment of the same start and length |
| SegmentQueue.InsertLaminar | src/stream_reassemble.c:255-313 | queued segments stay pairwise disjoint or nested, the outer one first |
| SegmentQueue.MergeSeparates | src/stream_reassemble.c:197-249 | a merge pass without allocation failures leaves no two segments overlapping or touching |
| SegmentQueue.MergeLaminar | src/stream_reassemble.c:197-249 | a merge pass keeps the shape whichever allocations fail, cut lengths included |
| SegmentQueue.MergeKeeps | src/stream_reassemble.c:197-249 | whichever merge allocations fail, the pass keeps shape and meaning when all runs fit in 16 bits |
| SegmentQueue.MergeMeaning | src/stream_reassemble.c:197-249 | without failures the pass keeps the meaning if and only if every run of touching segments fits in 16 bits |
| SegmentQueue.EnqueueMeaning | src/stream_reassemble.c:255-313 | the favour-new override law for a whole queueing step with any allocation failures |
| SegmentQueue.EnqueueExact | src/stream_reassemble.c:255-313 | without failures the override law holds if and only if no merge ran or its runs fit in 16 bits; the shape holds always |
| SegmentQueue.EnqueueLaminar | src/stream_reassemble.c:255-313 | queueing keeps the shape whatever the merge pass does |
| SeqNumbers.CompareAgrees | src/stream_reassemble.h:154-164 | comparing wrapped numbers is comparing offsets, within half the number space |
| SeqNumbers.BetweenAgrees | src/stream_reassemble.h:169-172 | the half-open interval test on numbers agrees with the one on offsets |
| SeqNumbers.PlaceExact | src/stream_reassemble.c:549-563 | the admission test places a segment at its true offset if and only if its end is within half the number space of the base |
| SeqNumbers.PlaceRange | src/stream_reassemble.c:549-563 | any number from the wire is placed with its end within half the number space of the base |
| StreamModel.InsertGood | src/stream_reassemble.c:524-614 | counters, limits, order and window hold after an arrival of any content |
| StreamModel.ConsumeGood | src/stream_reassemble.c:643-675 | the same after consuming |
| StreamModel.InsertFaithful | src/stream_reassemble.c:524-614 | an arrival of a slice of one stream leaves only right bytes in buffer and queue |
| StreamModel.ConsumeFaithful | src/stream_reassemble.c:643-675 | the same after consuming |
| StreamRuns.StreamSafety | src/stream_reassemble.c:524-675 | in every run over one stream the buffer equals the stream between base and next, and total = consumed + held |
| StreamRuns.ReachableLaminar | src/stream_reassemble.c:255-313 | in runs over one stream the queue is laminar, whichever allocations fail |
| ArbitraryRuns.ReachableShape | src/stream_reassemble.c:524-675 | in every run of arrivals with any contents and numbers, and reads, the queue is laminar and counters, limits, order and window hold |
| ArbitraryRuns.ReachableOverride | src/stream_reassemble.c:255-313 | in every such state, queueing obeys the favour-new law if no merge ran or its runs fit in 16 bits, whichever merge allocations fail; and only then when none fails |
| ArbitraryRuns.ReachableGenuine | src/stream_reassemble.c:524-675 | in every run each byte delivered or queued was sent at its offset by some arrival |
| ArbitraryRuns.WirePlausible | src/stream_reassemble.c:549-563 | segments with any numbers are placed so that the results on runs apply to them |
| ArbitraryRuns.WideMergeLoses | src/stream_reassemble.c:297-300 | ordinary arrivals reach a queue where the merge pass is too wide and the favour-new law fails |
| WideMerges.WidePair | src/stream_reassemble.c:212-240 | two adjacent segments of more than 65535 bytes together become one at the first one's start, 65536 bytes shorter than both, with the bytes of before |
| WideMerges.FailedJoin | src/stream_reassemble.c:219-245 | without memory for the joined record both segments stay and the pass goes on |
| WideMerges.FlatMerge | src/stream_reassemble.c:197-249 | a pass over disjoint segments, however wide its runs: every offset shows what it did, except those that a wrapping length cuts off, which show nothing |
| WideMerges.WideMergeShows | src/stream_reassemble.c:197-249 | the run of eleven touching segments of 7000 bytes: bytes 7000 to 11463 are kept and delivered, 11464 to 76999 are gone |
| ByteHistory.InputBytes | src/stream_reassemble.c:524-675 | the byte shown at any offset after one arrival or read: the arrival's own where it is next or queued and not dominated, else the one before, unless it was read or its segment dropped |
| ByteHistory.LastWriterShows | src/stream_reassemble.c:524-675 | in every run whose merges fit, an offset shows the byte of the last arrival that wrote it, if no later input read it or dropped the segment |
| ByteHistory.NothingShows | src/stream_reassemble.c:524-675 | an offset that no arrival of such a run wrote or disturbed shows nothing |
| ByteHistory.ReadTakes | src/stream_reassemble.c:643-675 | a read takes out as many bytes as it asks for and the buffer holds, from the front; they no longer show, and no other byte changes |
| StreamRuns.DrainHolds | src/stream_reassemble.c:318-378 | draining a queue no segment of which reaches across the next number loses nothing |
| StreamRuns.InOrderHolds | src/stream_reassemble.c:572-588 | exactly which offsets are still held after an in-order arrival |
| StreamRuns.QueuedHolds | src/stream_reassemble.c:590-613 | an arrival admitted to the queue adds exactly its own offsets to what is held |
| StreamRuns.OverlapLoses | src/stream_reassemble.c:332-341 | two overlapping arrivals on a fresh buffer after which two received bytes are gone |
| ArrivalOrder.OrderIndependence | src/stream_reassemble.c:524-614 | consecutive pieces arriving in any order, with repetitions, end as exactly the stream and an empty queue |
| StreamBuffer.Buffer.constructor | src/stream_reassemble.c:80-110 | a new buffer shows the empty stream at the initial number |
| StreamBuffer.Buffer.ProcessSegmentQueue | src/stream_reassemble.c:318-378 | the loop on numbers drains the queue as the specification does |
| StreamBuffer.Buffer.HandleBufferOverlap | src/stream_reassemble.c:385-412 | what is left of a segment beyond the next number, or nothing |
| StreamBuffer.Buffer.Overlap | src/stream_reassemble.c:418-519 | the favour-new cases on numbers trim one record as the specification trims its segment |
| StreamBuffer.Buffer.HandleQueueOverlaps | src/stream_reassemble.c:418-519 | the in-place walk trims the whole queue |
| StreamBuffer.Buffer.JoinRecords | src/stream_reassemble.c:212-240 | two touching records become one, its length cut to 16 bits |
| StreamBuffer.Buffer.TryMergeSegments | src/stream_reassemble.c:197-249 | the in-place pass computes the specified merge, allocation failures included |
| StreamBuffer.Buffer.FindSlot | src/stream_reassemble.c:277-293 | the walk stops at the sorted position, or reports a duplicate |
| StreamBuffer.Buffer.InsertSegmentQueue | src/stream_reassemble.c:255-313 | queueing acts as the specification, and is refused exactly when the queue is full |
| StreamBuffer.Buffer.Admit | src/stream_reassemble.c:549-563 | the admission test yields the part of the segment at or after the base, if any |
| StreamBuffer.Buffer.InsertSegment | src/stream_reassemble.c:524-614 | any segment from the wire acts as the specified arrival at the offset its number says |
| StreamBuffer.Buffer.ConsumeData | src/stream_reassemble.c:643-675 | consuming slides the array and drains, as specified |
| StreamBuffer.Replay | src/stream_reassemble.c:524-675 | any run on array and wrapping numbers ends with the stream's bytes between base and next, and both numbers right modulo 2^32 |
| StreamBuffer.ReplayPieces | src/stream_reassemble.c:524-614 | the pieces of a stream in any order, with repetitions, on array and wrapping numbers: exactly the stream comes out and the queue is empty |
| StreamBuffer.ReplayAny | src/stream_reassemble.c:524-675 | any run of arrivals and reads on array and wrapping numbers ends as the run of the placed segments, laminar and genuine |
| TimerSpec.TicksRoundTrip | src/timer.c:96-113 | ticks to time and back is the identity |
| TimerSpec.FiresOnTime | src/timer.c:232-289 | a pending timer left alone fires at the tick of its expiry and at no earlier one |
| TimerSpec.ScheduleExact | src/timer.c:135-185 | a delay of d ticks runs the handler on exactly the d-th following tick |
| TimerSpec.PeriodicNeverDrifts | src/timer.c:198-224 | from any state of its cycle a periodic timer fires at exactly the multiples of its interval |
| TimerSpec.PeriodicExact | src/timer.c:502-530 | a timer scheduled with interval p fires on exactly the ticks p, 2p, 3p and so on |
| TimerCalls.TicksOfTime | src/timer.c:96-105 | a time is its whole milliseconds, and 2^32-1 ticks if it is negative or too long |
| TimerCalls.ResetExact | src/timer.c:560-597 | a reset timer fires its stored delay after the reset, a periodic one every delay, and keeps delay and period flag |
| TimerCalls.UpdateExact | src/timer.c:599-631 | an updated timer fires its new delay after the update, a periodic one every new delay, and keeps its period flag |
| TimerCalls.CancelSilent | src/timer.c:532-558 | a cancelled timer never fires by itself |
| TimerCalls.FiresLast | src/timer.c:198-224 | a one-shot timer, and one whose handler answers that it is to stop, fires for the last time |
| TimerCalls.FiresOnlyOnce | src/timer.c:198-224 | a one-shot timer left alone fires in the tick of its expiry and in no other |
| TimerCalls.ShortestDelay | src/timer.c:158-165 | a delay below one tick counts as one tick |
| TimerCalls.AcceptedDelay | src/timer.c:427-440 | any other time of fewer than 4294967 whole seconds is accepted, in whole milliseconds |
| TimerCalls.RefusedDelay | src/timer.c:153-156 | a delay that is negative or of 2^32-1 ticks and more arms nothing |
| TimerHandlers.ServedOnce | src/timer.c:252-287 | whatever handlers ask for, the timers served while one level is drained are distinct and were due when that began |
| TimerHandlers.FiresInTick | src/timer.c:232-289 | in a tick that loses no lap, a timer that no served handler cancels, resets or updates fires if and only if the tick is its expiry, and otherwise keeps it |
| TimerHandlers.ExactTick | src/timer.c:232-289 | a tick loses no lap, and is one whole, if no delay its handlers ask for reaches the lap |
| TimerRuns.TickLook | src/timer.c:232-289 | on any tick a timer named by no handler is served, once, if and only if the tick is its expiry, and is then disarmed or re-armed; otherwise it keeps expiry and settings |
| TimerRuns.FiresAcross | src/timer.c:232-289 | in any run of calls and ticks whose handlers call the interface, a timer that none of them names fires in the tick of its expiry, once, and in no tick before |
| TimerRuns.PeriodicAcross | src/timer.c:198-224 | in such a run a periodic timer fires at its expiry and at every interval after it, and in no other tick |
| TimerRequests.TickAnew | src/timer.c:560-613 | when a handler resets or updates another timer, that one comes up its delay after the tick, with its period flag; a lap less exactly if the handler runs while level 0 is drained on a carry tick and the delay reaches the lap |
| TimerRequests.HandlerAcross | src/timer.c:560-613 | over the run that follows it fires in that tick, and in none before |
| TimerRequests.CallAcross | src/timer.c:560-631 | after a reset or update between ticks, in a run whose handlers call the interface, it fires its delay after the call |
| TimerRequests.LastAcross | src/timer.c:198-224 | in such a run a one-shot timer, or one whose handler answers that it is to stop, fires for the last time |
| TimerRequests.NeverAcross | src/timer.c:532-558 | in such a run a timer that is not pending and that no one names never fires |
| TimerRuns.PlainRun | src/timer.c:427-631 | a run whose handlers only answer fires, call by call, exactly the timers the specification lists |
| TimerHandlers.TickPlain | src/timer.c:232-289 | when handlers only answer, the order of service is immaterial |
| TimerWheel.ArmMeaning | src/timer.c:135-185 | in every phase of a tick linking a timer arms it in the specification: d ticks from now, and a lap less only while level 0 is drained on a carry tick and d reaches the lap |
| TimerWheel.ScheduledOnCarry | src/timer.c:246-287 | in any state in which level 0 is drained on a carry tick, a timer scheduled with d ticks comes up d ticks later if and only if d is below the wheel size, and otherwise one lap early |
| TimerWheel.LapLost | src/timer.c:238-287 | a run from the start in which a handler asks for d >= n ticks at tick n and the timer comes up at tick d |
| WheelState.PlaceHigh | src/timer.c:164-180 | level-1 placement: turn, remainder corrected by cursor 0, and never the slot under the cursor |
| WheelState.DropPlace | src/timer.c:259-284 | a dropped timer keeps its expiry, on whichever level it lands, outside the slot under the cursor |
| WheelState.OneSlotEach | src/timer.c:127-132 | a timer is pending if and only if it is listed, in exactly one slot, once; on level 0 nothing is left of its delay |
| TimerWheel.ScheduledQuiet | src/timer.c:135-185 | scheduling in any phase of a tick keeps the invariant and adds nothing to the slot being drained |
| TimerWheel.DroppedTakes | src/timer.c:259-284 | dropping a timer leaves one fewer there and changes no expiry, so draining ends |
| TimerWheel.CurrentTurn | src/timer.c:232-289 | timers under a cursor are due now, or have only their remainder left; a delay of a lap or more never expires from slot 0 of level 0 |
| TimerWheel.RearmExact | src/timer.c:216-223 | a periodic timer re-armed as it expires comes up exactly its interval later, on every tick |
| TimerWheel.TickDone | src/timer.c:232-289 | when the levels are drained nothing is left due, and the tick is one of the specification, in one part or two |
| TimerWheel.DrainedDue | src/timer.c:252-254 | an empty slot under the cursor means that nothing is due in that part of the tick |
| TimerWheel.Scheduler.GetLevelTicks | src/timer.c:116-125 | the loop computes the ticks of one step of a level |
| TimerWheel.Scheduler.Sched | src/timer.c:135-185 | the two loops place a timer as specified; out-of-range delays are refused |
| TimerWheel.Scheduler.Serve | src/timer.c:427-613 | a request to start, cancel, reset or update a timer, in any phase of a tick and between ticks |
| TimerWheel.Scheduler.Release | src/timer.c:532-543 | cancelling in any phase disarms, pending or not |
| TimerWheel.Scheduler.Rearm | src/timer.c:560-613 | reset and update in any phase: cancel, and arm with the period flag of before |
| TimerWheel.Scheduler.Expire | src/timer.c:198-224 | unlink, handler with its requests, and re-arming through the time conversions with the delay and period flag of then |
| TimerWheel.Scheduler.Drop | src/timer.c:259-284 | the drop loop chooses level and remainder as specified |
| TimerWheel.Scheduler.DrainSlot | src/timer.c:252-284 | the drain loop terminates and empties the slot, serving each timer on its turn whatever handlers ask for |
| TimerWheel.Scheduler.RunTick | src/timer.c:232-289 | every tick, with handlers that call the interface with any delays, is a tick of the specification |
| TimerWheel.Scheduler.RunPlainTick | src/timer.c:232-289 | with handlers that only answer, exactly the due timers fire, each once |
| TimerWheel.Scheduler.Perform | src/timer.c:232-631 | one call between ticks or one tick acts as the specification says |
| TimerWheel.Scheduler.Schedule | src/timer.c:427-440 | scheduling arms the timer in the specification; result codes for out-of-range times |
| TimerWheel.Scheduler.Cancel | src/timer.c:532-558 | cancelling disarms, pending or not |
| TimerWheel.Scheduler.Reset | src/timer.c:560-597 | resetting re-arms with the old delay from now |
| TimerWheel.Scheduler.Update | src/timer.c:599-631 | updating re-arms with a new delay from now |
| TimerWheel.Scheduler.TimeNow | src/timer.c:188-196 | what the cursors read as after any number of ticks; it is the elapsed time if and only if 32 bits have not run out |
| TimerWheel.Scheduler.ScheduleAbs | src/timer.c:459-487 | on the clock's reading: when the handler runs at once, when the call succeeds, and the tick it arms |
| TimerWheel.Drive | src/timer.c:232-631 | any run of calls and ticks, with handlers that call the interface, is a run of the specification; when they only answer, exactly the timers it lists fire, call by call |
| HashChains.Table.GetOrCreate | src/behavioral_detector.c:219-256 | lookup, or insertion at the chain head if memory allows, as a map from key to tracker |
| HashChains.Table.AgeChain | src/behavioral_detector.c:117-131 | walking one chain and unlinking leaves the other records in order |
| HashChains.Table.AgeOut | src/behavioral_detector.c:111-132 | ageing removes exactly the stale records, in every bucket |
| Trackers.AgeingInvisible | src/behavioral_detector.c:111-184 | ageing at any points changes no alert of a run in which the two clock readings disagree or memory fails only at detections whose tracker the detector without ageing lacks too |
| Trackers.SteadyHarmless | src/behavioral_detector.c:219-256 | runs whose readings always agree and whose memory lasts are among these |
| AgeingLimits.AgeingInvisibleExactly | src/behavioral_detector.c:111-184 | over all runs ageing is invisible if and only if the clock does not move between the two readings and allocations do not fail |
| AgeingLimits.VisibleByClock | src/behavioral_detector.c:282-295 | one second between the readings is enough for an alert that a detector without ageing does not raise |
| AgeingLimits.VisibleByMemory | src/behavioral_detector.c:236-242 | one failed allocation after ageing is enough for an alert to be missed |
| PortScans.TracksExactly | src/behavioral_detector.c:261-277 | up to 1024 ports the tracker's list is exactly the set of SYN ports of its window |
| PortScans.AddPortTracks | src/behavioral_detector.c:261-277 | the list stays duplicate-free and grows exactly for a new port below its capacity |
| PortScans.AfterTracks | src/behavioral_detector.c:282-368 | after any packets each tracker stands for its source's current window |
| PortScans.PortScanExact | src/behavioral_detector.c:282-368 | packet i raises a scan alert if and only if it brings its source's window from nine ports to ten; without ageing for any clock and any allocation failures |
| WindowAlerts.AlertsExact | src/behavioral_detector.c:282-662 | packet i raises its scan alert, one brute-force alert for each fifth failure of its target's window, one exfiltration alert if it is the first to make its pair's window suspicious, and nothing else |
| AlertLaws.AlertLaw | src/behavioral_detector.c:282-662 | the alerts of packet i, with all they say, on the raw packets: those that its source's TCP packets, its target's refusals and its pair's payload call for |
| ScanLaws.ScanLaw | src/behavioral_detector.c:301-352 | a scan alert exactly when the packet has flag 0x02 and its port is the tenth of its source's packets with that flag since the window of 60 seconds was opened; "SYN scan" exactly if one of them lacked flag 0x10 |
| ScanLaws.ScanHistory | src/behavioral_detector.c:282-314 | a source's window is made of its TCP packets since the one that opened it |
| ScanLaws.TrackerState | src/behavioral_detector.c:261-277 | what a source's tracker holds after any packets: at most 1024 of its window's ports, each once, 32-bit counts of SYNs with and without ACK, and whether there were ten ports |
| ScanLaws.LastProbe | src/behavioral_detector.c:303 | a scan tracker was last used when its source's last TCP packet was inspected |
| FailureLaws.FailureLaw | src/behavioral_detector.c:420-500 | a brute-force alert exactly for each response with status 401 or 403 that is the fifth of its target since the window of 600 seconds was opened |
| FailureLaws.TargetState | src/behavioral_detector.c:420-500 | what a target's tracker holds after any packets: start, 32-bit counts of both statuses, and whether there were five |
| FailureLaws.LastRefusal | src/behavioral_detector.c:448 | a brute-force tracker was last used when its target's last refusal was inspected |
| TransferLaws.TransferLaw | src/behavioral_detector.c:573-662 | an exfiltration alert exactly when a packet with payload is the first to make its pair's packets suspicious since the window of 600 seconds was opened: 104857600 bytes to an external address, or 10485760 with an hour from 22 to 5 |
| TransferLaws.PairState | src/behavioral_detector.c:573-662 | what a pair's tracker holds after any packets: start, 64-bit bytes, 32-bit packets, night, and whether it has been suspicious |
| TransferLaws.LastMoved | src/behavioral_detector.c:597 | an exfiltration tracker was last used when its pair's last packet with payload was inspected |
| TransferLaws.ExternalOctets | src/behavioral_detector.c:31 | which first two octets make an address internal: 10, 168.192, and 16 to 31 followed by 172 |
| WindowAlerts.ReportedExact | src/behavioral_detector.c:573-662 | in every run below 2^64 bytes a pair's window has been reported if and only if it is suspicious |
| WindowAlerts.BruteStepsTrack | src/behavioral_detector.c:420-500 | over a packet's responses a target's tracker stands for its window, and alerts fall on fifth failures only |
| WindowAlerts.ExfilStepTracks | src/behavioral_detector.c:573-662 | a pair's tracker stands for its window, and the alert falls on the first suspicious transfer |
| BehavioralDetector.DetectorTables.AddPortToTracker | src/behavioral_detector.c:261-277 | the search loop reports a port as new exactly when the list grows |
| BehavioralDetector.DetectorTables.DetectPortScan | src/behavioral_detector.c:282-368 | one packet on the chains acts as on the map |
| BehavioralDetector.DetectorTables.DetectBruteForce | src/behavioral_detector.c:420-500 | one HTTP status on the chains acts as on the map |
| BehavioralDetector.DetectorTables.DetectExfiltration | src/behavioral_detector.c:573-662 | one transfer on the chains acts as on the map |
| BehavioralDetector.DetectorTables.InspectPacket | src/behavioral_detector.c:982-1015 | a packet is inspected as specified, with ageing before every 10000th |
| BehavioralDetector.Watch | src/behavioral_detector.c:982-1015 | a whole run of the ageing detector raises what the maps say, and in harmless runs what a detector that never ages would raise |
| BehavioralDetector.AgesEvery | src/behavioral_detector.c:982-1015 | ageing precedes every 10000th packet and no other |
| AlertLaws.AgeingLimits | src/behavioral_detector.c:111-184 | ageing drops scan trackers unused for more than 300 seconds, and others whose window began more than 600 or 1800 seconds ago |
| FlowTable.MatchesMeaning | src/flow.c:137-189 | a match is the key or its reverse, and symmetric |
| FlowTable.LookupExact | src/flow.c:262-300 | a lookup finds a flow if and only if it has the key's hash and matches it |
| FlowTable.GetValid | src/flow.c:262-396 | lookup and creation keep one flow per hash and key, and the counters |
| FlowTable.SameFlowUntilRemoved | src/flow.c:262-396 | a key gets the same flow again, after any events, until that flow is removed |
| FlowTable.DirectionsShare | src/flow.c:107-189 | both directions share a flow if and only if the directional hash agrees on them |
| FlowTable.AgeExact | src/flow.c:636-641 | the 32-bit age is the elapsed time if and only if the clock has not gone back or run 2^32 seconds ahead |
| FlowTable.CleanupExact | src/flow.c:616-673 | expiry removes exactly the unreferenced over-age flows and keeps the others in order |
| FlowTable.RunValid | src/flow.c:262-673 | in every run no two flows have equal hash and matching keys, and active = chain lengths = created - removed, at most the limit |
| FlowActivity.GetSucceeds | src/flow.c:262-328 | a packet gets a flow if and only if there is one for its key, or the table has room and memory lasts |
| FlowActivity.ChainPlace | src/flow.c:273-274 | in every run a flow is listed in the chain of its hash modulo the table size, and in no other |
| FlowActivity.LastSeen | src/flow.c:343-346 | over runs a flow's time and timeout are those of the last update that names it, or else the time of the packet that created it, and 30 seconds |
| FlowActivity.IdleRemoved | src/flow.c:616-673 | expiry removes a flow if and only if nobody holds it and it has been idle for longer than its timeout |
| FlowTable.ReferencesExact | src/flow.c:600-611 | the use count is the number of references held, after every event of a run, if and only if that number never exceeds 16 bits |
| FlowTable.HeldStays | src/flow.c:616-673 | while that fits, a flow that somebody holds is not removed |
| FlowTable.CountWraps | src/flow.c:289 | with 65535 references held, one more lets the flow expire |
| FlowTable.WrapReached | src/flow.c:289 | 65535 packets of one key reach that state from the empty table |
| FlowChains.FlowManager.Find | src/flow.c:284-291 | the chain walk is the specified lookup |
| FlowChains.FlowManager.GetFlow | src/flow.c:262-396 | lookup or creation in place, refused when full or out of memory |
| FlowChains.FlowManager.ReleaseFlow | src/flow.c:600-611 | releasing gives one reference back, never below zero |
| FlowChains.FlowManager.UpdateFlow | src/flow.c:402-414 | an update sets the time of the last packet, and the timeout that the session asks for |
| FlowChains.FlowManager.WalkChain | src/flow.c:630-668 | the unlinking walk keeps the unexpired flows of a chain in order |
| FlowChains.FlowManager.CleanupExpired | src/flow.c:616-673 | the sweep over all chains is the specified expiry, and returns how many went |
| TcpSession.TransitionMeaning | src/flow.c:428-540 | an awaited packet always moves the connection on; any other closes it if it is a reset and else changes nothing |
| TcpClosing.EnteredExactly | src/flow.c:438-556 | for every state, exactly which packets lead into it, and from where |
| TcpClosing.ClosingSide | src/flow.c:474-479 | FIN_WAIT1, FIN_WAIT2, CLOSING and TIME_WAIT belong to connections that the client began to close, CLOSE_WAIT and LAST_ACK to those that the server did |
| TcpClosing.FinsTaken | src/flow.c:474-548 | how many FINs, and whether an acknowledgement, lie behind each state |
| TcpSession.ChangesBounded | src/flow.c:428-540 | a run changes state at most seven times and never reaches LISTEN |
| TcpSession.SevenChanges | src/flow.c:428-540 | some run changes state seven times, so the bound is tight |
| TcpSession.ClosedForEver | src/flow.c:530-540 | CLOSED is never left |
| TcpSession.EstablishedAfterHandshake | src/flow.c:437-470 | ESTABLISHED and every later state need a SYN and a later ACK |
| TcpSession.TimeoutInForce | src/flow.c:463-466 | the long timeout is in force if and only if ESTABLISHED has been visited |
| TcpSession.BuffersExact | src/flow.c:545-585 | each buffer exists if and only if some packet left its seeding state while memory was available, with the first such packet's number, and holds exactly its direction's payload from ESTABLISHED |
| TcpSession.MidstreamPickup | src/flow.c:437-447 | a connection first seen at its SYN-ACK never gets a buffer towards the server |
| TcpSession.TcpFlow.Switch | src/flow.c:428-540 | the state switch in place |
| TcpSession.TcpFlow.UpdateFlow | src/flow.c:401-595 | one packet on the object acts as specified |
| DnsNames.ParseName | src/dns_parser.c:78-163 | the loop terminates and returns the dot-joined labels along the pointer chain, cleaned, with the bytes taken, or fails exactly when the name is malformed or too long; and how much of the text buffer it writes |
| DnsNames.StoredBound | src/dns_parser.c:146-159 | at most 318 bytes of text are ever stored |
| DnsNames.StoredExact | src/dns_parser.c:146-159 | what is stored fits 256 bytes if and only if no label takes a text of at most 254 bytes beyond 256 |
| DnsNames.ReturnedFits | src/dns_parser.c:122-129 | every name that is returned was stored inside the buffer |
| DnsNames.LongLabels | src/dns_parser.c:146-159 | labels of 63, 63, 63, 62 and 63 bytes are stored in 318 bytes and then refused |
| DnsNames.NameInside | src/dns_parser.c:78-163 | a parsed name takes at least one byte and stays inside the packet |
| DnsNames.CompressedName | src/dns_parser.c:97-120 | labels followed by a pointer read as the labels followed by the name pointed to, while pointers are left |
| DnsText.NameShows | src/dns_parser.c:140-155 | in every name returned each label byte stands at its place, as itself from 0x20 to 0x7e and as a question mark elsewhere, and a dot before every label but the first |
| DnsText.NameFound | src/dns_parser.c:86-163 | a name is found exactly if its labels can be read with at most ten pointers and their text has at most 254 bytes |
| DnsText.TenPointers | src/dns_parser.c:95-121 | a written name behind a row of pointers is found if and only if there are at most ten of them |
| DnsText.ReservedLength | src/dns_parser.c:131-134 | a length byte from 64 to 191 is refused |
| DnsNames.MoreJumps | src/dns_parser.c:85-119 | the limit on pointers only refuses names; it never changes one |
| DnsNames.NameRoundTrip | src/dns_parser.c:78-163 | a written name of printable dot-free labels comes back label for label, if and only if its text has at most 254 bytes |
| DnsNames.CopyLabel | src/dns_parser.c:146-154 | the copy loop replaces exactly the unprintable bytes |
| DnsNames.ParseQuestion | src/dns_parser.c:214-257 | a question is the name with type and class, stays inside the packet, needs memory, and uses the text buffer as its name does |
| DnsNames.QuestionRoundTrip | src/dns_parser.c:214-257 | a written question comes back whole |
| QueueOwnership.OwnershipExact | src/netif.c:742-811 | in an accepted configuration a port's queue ids over all lcores are a permutation of 0..n-1 if and only if n is below 256 |
| QueueOwnership.OwnershipWhenAllChecked | src/netif.c:742-811 | with all configured lcores checked, that always holds and n is at most 16 |
| QueueOwnership.WrappedCountAccepted | src/netif.c:784 | seventeen lcores repeating the same sixteen queues are accepted when one lcore is checked |
| QueueOwnership.AcceptedMeans | src/netif.c:742-811 | in an accepted configuration some lcore is counted, no checked one lists more ports than there are, and a port has at most sixteen queues in eight bits, each claimed by a checked lcore |
| QueueOwnership.CheckedExact | src/netif.c:742-811 | an lcore is checked if and only if all up to it list ports, and it is the first or below the number of lcores |
| QueueOwnership.CoverageExact | src/netif.c:800-810 | a checked lcore transmits on every configured port if and only if it lists no port twice |
| QueueOwnership.OneOwnerEach | src/netif.c:1488-1549 | the map names the only lcore that claims a queue below n, and no entry is overwritten or set beyond n |
| QueueOwnership.LastClaimant | src/netif.c:1488-1549 | in any configuration an entry is the lcore that claims the queue last, or 4096 |
| QueueOwnership.CountQueues | src/netif.c:647-675 | the counting loops give the number of a port's queue ids |
| QueueOwnership.CountPorts | src/netif.c:708-731 | the loops count the distinct ports of the counted lcores |
| QueueOwnership.MarkQueues | src/netif.c:759-777 | marking stops exactly at a repeated queue |
| QueueOwnership.Check | src/netif.c:742-811 | the check accepts exactly the configurations described, and each error code is justified |
| QueueOwnership.BuildMap | src/netif.c:1488-1549 | each entry names the last lcore that claims the queue |
| ListRing.RingUnique | src/list.h:48-52 | a head determines its ring, so a list's elements are well defined |
| ListRing.MutualInverse | src/list.h:61-70 | next and prev are inverse to each other all around a ring |
| ListRing.InitListHead | src/list.h:48-52 | a one-node ring |
| ListRing.ListAdd | src/list.h:84-87 | adds at the front |
| ListRing.ListAddTail | src/list.h:98-101 | adds at the end |
| ListRing.ListDel | src/list.h:128-133 | removes one element and poisons its links |
| ListRing.ListDelInit | src/list.h:177-181 | removes one element and makes it an empty list |
| ListRing.ListMoveTail | src/list.h:199-204 | moves an element to the end of its own or another list |
| ListRing.EmptyExact | src/list.h:221-224 | the emptiness test holds if and only if the ring has no element |
| ListRing.ListIsLast | src/list.h:211-215 | the last-element test, both ways |
| ListRing.ListElems | src/list.h:230-237 | the walk terminates with the number of elements |
| ListRing.ListSpliceTailInit | src/list.h:383-390 | appends one list to another and empties it |
| AlertLog.Retention | src/rule_engine.c:142-238 | the list is the most recent max(1, limit) alerts since the last clear, newest first, and the count is its length |
| AlertLog.RetentionExact | src/rule_engine.c:202-216 | that holds if and only if the limit is not 2^32-1 or that many alerts have not been raised |
| AlertLog.ConsecutiveIds | src/rule_engine.c:150 | the numbers in the list are consecutive, modulo 2^32 |
| AlertLog.SeverityCounts | src/rule_engine.c:219-222 | each severity's counter is the number of alerts of that severity |
| AlertLog.CountsConserved | src/rule_engine.c:219-222 | the counters and the alerts without a counter add up to the alerts generated |
| AlertLog.Engine.RemoveOldest | src/rule_engine.c:202-216 | the walk unlinks the oldest alert unless it is the only one |
| AlertLog.Engine.CreateAlert | src/rule_engine.c:142-238 | creating an alert in place acts as specified |
| AlertLog.Engine.ClearAlerts | src/rule_engine.c:876-889 | clearing empties the list and keeps the statistics |
| AlertLog.Replay | src/rule_engine.c:142-238 | a run of the object is the run of events |

## Left out

- Reassembly policies other than favour-new: no caller selects them, and in the containment case the new segment is released before its caller inspects it.
- Reassembly statistics (overlaps, gaps, memory in use and peak) and the insert return value: trimming and merging change lengths without adjusting the memory figure, and the in-order path's return value omits drained bytes, so neither is conserved by the code. `total_reassembled` is unbounded in the model.
- StreamBuffer.Buffer.constructor: requires a buffer size below 2^31, half the number space; the default is 256 KB.
- ArrivalOrder.OrderIndependence: needs room for the whole stream, at most 65535 bytes of it, and every segment record allocated; merge allocations may fail.
- SegmentQueue.EnqueueExact: is an equivalence when no merge allocation fails; with failures `SegmentQueue.EnqueueMeaning` gives the sufficient direction, since a failed join may be just what avoids the cut.
- ByteHistory.LastWriterShows: is about runs whose merge passes, if any, have only runs that fit in 16 bits; what a pass that does not fit cuts off is `SegmentQueue.MergeMeaning`.
- The buffer array and the segment list: the data array is a real array, the segment list a sequence of records, not linked nodes.
- Delivery through a flow: a flow seeds its buffers with the number of the SYN itself, which occupies one number, so the buffer is modelled on its own with the number of the first data byte.
- Timer wheel lists: slots are sequences of timer ids and timers are records in a map; the pointer manipulation of the lists themselves is `ListRing`. Memory sharing between the two is not modelled.
- TimerWheel.Scheduler.Serve: a request to start a pending timer is skipped, where the program warns and links it twice; so is a reset or update of a timer that was never scheduled.
- TimerWheel.Scheduler.RunTick: requires that a handler which starts its own timer as periodic, or resets or updates it, answers that it stops; otherwise the program would link that timer twice. A one-shot timer's handler may always be taken to answer so.
- TimerWheel.Scheduler.Expire: requires the same of its handler.
- TimerWheel.Scheduler.Schedule: requires a timer that is not pending; the program logs a warning for a pending one and links it twice.
- TimerWheel.Scheduler.Sched: requires a timer that is not pending, for the same reason.
- TimerWheel.Scheduler.Reset: requires a timer that was scheduled before, as do updates.
- TimerWheel.Scheduler.ScheduleAbs: requires a timer that is not pending, and a time whose microseconds are below one million.
- Locks, per-lcore storage and the DPDK timer that drives the wheel: each tick and each call is one step.
- Trackers: the statistics counters are the alerts raised. Traffic-anomaly trackers are not modelled; on the TLS path their window is never reset, so their ageing can be observed.
- Flow records carry only what lookup, expiry and reference counting use. Packets other than IPv4 and IPv6 are not modelled, and the flow hash is abstract; the bucket is the hash modulo the table size, which is the program's mask because the size is a power of two.
- TcpSession.TcpFlow.UpdateFlow: packet, byte and segment counters are left out, and a buffer records the segments handed to it rather than reassembling them. A buffer record that could not be allocated with the flow is a run in which memory fails at every packet that would seed that buffer.
- DnsNames.ParseName: the text is a growing sequence beside which the highest position written is kept; what a write beyond the caller's buffer would do is not modelled. Printable means 0x20 to 0x7e, as in the C locale. Resource records and whole messages are not modelled.
- QueueOwnership.Check: requires port ids below 64 and queue ids below 16, the bounds of the fixed arrays; a count above 16 is refused, where the program would read past the row of marks. A port name that no port has yields port id 4096 (src/netif.c:258-264), with which the program's check indexes its marks out of bounds; what it does then is not modelled, nor is reading the configuration into these records.
- QueueOwnership.BuildMap: the port names, hardware addresses and the largest ids printed beside the map.
- AlertLog: addresses, texts and time stamps of an alert, logging and JSON output.
- HTTP, TLS and JSON code, configuration parsing, packet decoding and the remaining DPDK plumbing: mostly formatting, string tables and calls into libraries.
- Entropy computations: floating-point logarithms.
