# FlexTOE data path: a verified model

FlexTOE offloads the TCP data path to a network card.  A packet, an application bump, a timer
or a scheduler decision becomes an item of work; a handler runs it on the flow's record; the
result drives payload transfers, acknowledgements, notifications and the transmit scheduler.
This project models that pipeline and the host-side helpers with the most intricate state, and
proves what holds over every run of them.

| file | what it is about |
|---|---|
| `Words.dfy`, `Buffers.dfy`, `Sequences.dfy` | 32-bit arithmetic and circular buffers, related to unbounded counters and streams; sequences without repetition |
| `Flows.dfy` | the flow record and the five handlers as functions of its value |
| `FlowRecord.dfy` | the record updated in place, proved to compute those functions |
| `Receive.dfy`, `Sender.dfy` | each half of the record against unbounded stream offsets; flow control; fast retransmission |
| `AnyPeer.dfy` | what the record keeps against any packets from any peer |
| `Connection.dfy` | a whole connection: record, both buffers, both streams, over all runs |
| `Acknowledging.dfy` | what packets do, by their headers alone: acknowledgements, FINs, answers |
| `EndToEnd.dfy` | two connected ends over a network that loses, repeats and reorders |
| `FlowCache.dfy` | the three-level record cache, invisible to the handlers |
| `CacheThreads.dfy` | eight threads sharing that cache: no thread's CAM entry is taken before its handler has run |
| `ThreadedPath.dfy` | one flow on the threaded, cached data path is a connection by itself |
| `Scheduler.dfy`, `QueueManager.dfy` | the transmit scheduler as steps between swap points, and its threads' code under its invariants |
| `Tokens.dfy` | the scheduler's tokens are neither lost nor doubled |
| `DataPath.dfy` | handlers, post-processing and scheduler together: nothing sendable is forgotten |
| `DmaCommands.dfy`, `DmaPipeline.dfy` | packed DMA commands as circular copies; the jump-coded DMA loop as a FIFO |
| `PayloadPath.dfy` | handlers and DMA together: issued transfers move exactly the stream's bytes |
| `Timeouts.dfy` | the timeout manager's two linked lists over a 28-bit clock |
| `AppContexts.dfy` | round robin over application contexts |
| `PacketMemory.dfy`, `FreeList.dfy` | the first-fit allocator, and its linked free list in memory |
| `SlowPathRing.dfy` | the slow-path receive ring between card and host |
| `Dctcp.dfy` | window-based DCTCP in fixed-point arithmetic |

Method: wherever the source works on wrapping words, ring indices or packed fields, the model
keeps them, and a `Represents`-like relation ties them to unbounded values.  Each in-place
method is proved equal to a function of the old state; the properties are proved about those
functions and then for all runs by induction over sequences of events.

## Results about the code worth knowing

- A window update smaller than what is in flight makes the unsigned difference in `tcp_txavail`
  wrap, and the whole send buffer counts as sendable (`Sending.UncoveredWindowWraps`).  Exactly
  the window updates that cover what is left in flight avoid this (`Sending.CoveredPreservedIff`,
  `Sending.RunCoveredIff`).
- A FIN leaves only with a forced transmission that has no data, and the payload length of that
  transmission is then 65535 (`Sending.FinOnlyIfForcedAndEmpty`).
- A thread of the processing stage keeps the CAM entry of its lookup across waits, and nothing in
  the code marks that entry as in use.  Taking it for another flow would run the handler on the
  wrong record (`CacheThreads.RememberedVictimMisleads`; exactly when:
  `CacheThreads.InPlaceIffSpared`).  It never happens, because the order signal lets at most seven
  other lookups pass a thread that has not finished, and the least recently used of sixteen
  entries is then not among the remembered ones (`CacheThreads.OldestIsSpared`).
- The tags the CAM is initialised with are evicted like flows, so the seventeenth of a series of
  misses can store a record far outside the flow table (`FlowCaches.SentinelWrittenBack`).  Over
  any run this happens at most once for each of the sixteen tags, and nothing else is stored
  outside the table (`FlowCaches.StoresFromReset`).
- The two-transfer DMA form is wrong exactly if the payload wraps and its start lies in another
  4 GiB region than the buffer's base (`DmaCommands.CopiesCircularlyIff`, with an input in
  `DmaCommands.StraddlingBufferFails`).  Buffers inside one gigabyte page, as packet memory hands
  them out, never meet this (`DmaCommands.GigabyteNeverCrosses`).
- Duplicate acknowledgements keep counting after a fast retransmission: every third one resets
  the sender again (`Sending.EveryThirdDuplicate`).
- The local FIFO puts a flow back without its flow group (`firmware/qman.c:186`); the model keeps
  this.
- At a distance of exactly half the range the sign of `rel_time` depends on the clock
  (`Timeouts.RelTimeAtMiddle`), so the bound on clock gaps cannot be relaxed.

## Model

| member | source | states |
|---|---|---|
| `Connections.EstablishedRuns` | user/nicif.c:245-258 | from registration on, after every run of lost, duplicated, overlapping, reordered, wrapping segments, acknowledgements, transmissions, timers and application bumps: the application has read exactly a prefix of the peer's stream; `rx_avail` + delivered − freed = `rx_len`; the stored interval lies strictly ahead and inside the window; `tx_avail` + `tx_sent` = bytes written − bytes acknowledged; `tx_next_seq` − `tx_next_pos` is constant; every segment ever sent carries the application's bytes for its sequence number |
| `Connections.RunOk` | firmware/flows.c:179-816 | every reachable state is consistent (record, both buffers, both streams) and extends the earlier ones: reads only grow, acknowledgements never move back, and after RXFIN, whatever segments still come, the stream and `rx_next_seq` stand still |
| `Connections.StepOk` | firmware/flows.c:179-816 | each of the five events keeps the consistency of record, buffers and streams |
| `Connections.StepExtends` | firmware/flows.c:179-816 | no event takes back anything delivered, sent or acknowledged; after a received FIN no segment, in order or not, inside or past the stream, moves the receiving side |
| `Connections.DataInbound` | firmware/flows.c:521-816 | after any segment of the stream, and after a FIN any segment at all, the buffer holds all delivered, unfreed bytes and until the FIN the stored interval, and the reported bump exposes exactly the next bytes of the peer's stream |
| `Connections.LateInbound` | firmware/flows.c:696-702 | payload after a received FIN is not delivered, and what is still written goes only into free space |
| `Connections.AckInbound` | firmware/flows.c:462-481 | a packet without payload keeps record, buffer and stream consistent, and a FIN it ends the stream with sits at the end of the stream (which FINs are taken: `Acknowledging.FinTaken`) |
| `Connections.DataOutbound` | firmware/flows.c:580-614 | the acknowledgement of a segment keeps unacknowledged bytes in the buffer and the record in step with the stream (which are taken: `Acknowledging.SegmentTaken`) |
| `Connections.PureAckOutbound` | firmware/flows.c:392-440 | the same for a packet without payload, including the reset by duplicates (which are taken: `Acknowledging.AckTaken`) |
| `Connections.RetxOutbound` | firmware/flows.c:331-360 | a retransmission timer rewinds to the first unacknowledged byte and loses none |
| `Connections.AppOutbound` | firmware/flows.c:252-311 | bytes written into free space join the stream and leave unacknowledged ones intact |
| `Connections.TxOutbound` | firmware/flows.c:179-250 | a transmission carries the stream's bytes at the send position under their sequence number |
| `Connections.TransmissionsAgree` | firmware/flows.c:198-241 | two transmissions of one stream byte, with anything in between, carry the same byte |
| `Connections.HeadersTruthful` | firmware/flows.c:798-805 | every outgoing header acknowledges exactly what was delivered (and the FIN), advertises exactly the free space, and has the sequence number of the send position |
| `Connections.NotifiedIffChanged` | firmware/flows.c:608-712 | a packet raises a notification if and only if it lengthened the readable stream, advanced the acknowledgements or ended the stream; `TXP_ZERO` is set if and only if an acknowledgement left nothing in flight |
| `Connections.EstablishedOk` | user/nicif.c:245-258 | a newly registered connection is consistent for power-of-two buffers |
| `Acknowledging.SegmentTaken` | firmware/flows.c:545-614 | every data segment is answered; unless it is useless, its acknowledgement is taken exactly if its number names a point among the bytes written, and then moves the sender exactly there; its window and time stamp count exactly if it starts at or before the expected byte; a FIN is reported exactly when it ends the stream |
| `Acknowledging.AckTaken` | firmware/flows.c:387-440 | a packet without payload inside the window acknowledges exactly the bytes that its number names, resets the sender exactly if it is the third duplicate, and otherwise leaves it alone |
| `Acknowledging.FinTaken` | firmware/flows.c:442-516 | a packet without payload ends the stream if and only if it is in order, carries the first FIN and nothing is stored; it is answered if and only if it is outside the window, out of order without being the third duplicate, or ends the stream; its window counts if and only if it is in order |
| `Acknowledging.InsideIff` | firmware/flows.c:77-95 | the wrapped window test holds if and only if the number names an offset of the window, ends included |
| `Acknowledging.AcceptedIffUseful` | firmware/flows.c:557-566 | a segment is accepted if and only if it is not useless, and in order if and only if it also starts at or before the expected byte |
| `Acknowledging.MarksPassedOn` | firmware/flows.c:490-515 | congestion marks are passed on, the echo goes with an answer, and the measured time stamp is reported unless a packet without payload was answered |
| `Acknowledging.ClosedIff` | firmware/flows.c:277-286 | over every run TXFIN is set if and only if it was or some application bump closed |
| `EndToEnd.StreamsArrive` | firmware/flows.c:179-816 | two registered ends, with their own buffer lengths, over a network that loses, repeats, delays and reorders their segments, answers and acknowledgements: after every run each application has read, out of the buffer that the bytes of the frames were written to, exactly a prefix of what the other has written |
| `EndToEnd.MoveLinked` | firmware/flows.c:179-816 | whatever an end does or takes in, in both directions acknowledged <= received <= written stays true, and every frame ever sent carries its sender's bytes |
| `EndToEnd.AckMeansReceived` | firmware/flows.c:45-67 | an acknowledgement that a wrapped comparison accepts means exactly the bytes its sender had received |
| `EndToEnd.TakeInAllowed` | firmware/flows.c:198-241 | the bytes of every frame are those of its sender's stream at the offset that its sequence number names to the receiver: what one end puts on the network is what the other end's theorems ask of a peer |
| `EndToEnd.Progress` | firmware/flows.c:179-816 | from every linked state in which the receiver lacks a written byte and has room for it, and the window with what a reset adds reaches that byte, some continuation makes the receiver's application read more |
| `EndToEnd.AcknowledgementArrives` | firmware/flows.c:392-440 | from every linked state in which the receiver sends at a point that the sender takes in, some continuation lets the sender know of every byte received |
| `EndToEnd.RegisteredLinked` | user/nicif.c:245-258 | two registered ends are linked |
| `AnyPeer.FinFreezes` | firmware/flows.c:696-702 | for every record with RXFIN and every item of work, from any peer: `rx_next_seq` and `rx_next_pos` stay, nothing is reported, RXFIN stays and is not reported again |
| `AnyPeer.FinFreezesRun` | firmware/flows.c:696-702 | the same over every run: nothing is delivered any more |
| `AnyPeer.SegmentInside` | firmware/flows.c:521-816 | any sequence number, length and flags: until RXFIN the stored interval is empty or strictly ahead and inside the window, the report is at most `rx_avail` and exactly what `rx_avail` loses, and only free space is written |
| `AnyPeer.UnfreedUntouched` | firmware/flows.c:625-711 | no packet from any peer overwrites a delivered byte that was not freed |
| `AnyPeer.TrimInside` | firmware/flows.c:110-140 | what trimming leaves of any segment lies inside the free space, for all 32-bit inputs |
| `AnyPeer.StoreInside` | firmware/flows.c:635-678 | whatever is stored out of order keeps the interval inside the window |
| `AnyPeer.CatchUpInside` | firmware/flows.c:720-755 | catching up never takes more than `rx_avail` |
| `AnyPeer.HandleInside` | firmware/flows.c:179-816 | every item of work keeps the window, and accounts for `rx_avail` and `rx_next_pos` exactly |
| `AnyPeer.RunInside` | firmware/flows.c:179-816 | over every run of arbitrary packets, with an application that frees only what it holds: `rx_avail` + delivered − freed is constant, and `rx_next_pos` moved by exactly what was reported |
| `AnyPeer.AlwaysInside` | firmware/flows.c:179-816 | in every state of such a run the stored interval and the free space are as they should be |
| `AnyPeer.OutsideIsAnswered` | firmware/flows.c:387-390 | a packet without payload truly outside the window leaves the record as it was and is answered; one inside is processed |
| `AnyPeer.ReopenedIsAnnounced` | firmware/flows.c:302-308 | a bump that reopens a closed window leaves something sendable or forces a transmission, and that transmission advertises the window |
| `AnyPeer.ForcedOnlyToReopen` | firmware/flows.c:302-308 | a transmission is forced only then, and only if none would go out otherwise |
| `Receive.SegmentRefines` | firmware/flows.c:521-816 | on every segment, also after a FIN, the 32-bit handler does to the record what `Arrive` does to offsets, reports exactly the bytes that became contiguous, and requests the transfer of exactly the bytes kept |
| `Receive.TrimKeepsIntersection` | firmware/flows.c:110-140 | trimming keeps exactly the intersection of segment and window; it rejects if and only if the segment ends before the window or starts beyond it |
| `Receive.StoreRefines` | firmware/flows.c:635-678 | an out-of-order segment is kept exactly if it starts or extends the interval, and goes to its place in the buffer |
| `Receive.CatchUpRefines` | firmware/flows.c:720-755 | the stored interval is trimmed, dropped or delivered as the stream offsets demand, without underflow of `rx_avail` |
| `Receive.DeliverRefines` | firmware/flows.c:704-758 | in-order delivery advances through the stored interval when it touches |
| `Receive.FinRefines` | firmware/flows.c:762-776 | the wrapped comparison accepts a FIN exactly when the whole segment before it was delivered |
| `Receive.AnnouncedIffLonger` | firmware/flows.c:704-712 | a payload is announced if and only if the readable stream became longer |
| `Receive.ArriveProgress` | firmware/flows.c:704-718 | a segment at or before the expected byte always makes progress while there is room, and none takes anything back |
| `Sending.AckBumpExact` | firmware/flows.c:45-67 | an acknowledgement number is accepted if and only if it names a point between the acknowledged bytes and the end of what was written; the bump is the distance |
| `Sending.AcknowledgeRefines` | firmware/flows.c:396-419 | acknowledging moves the stream offsets, also past the send position after a reset |
| `Sending.ResetRefines` | firmware/flows.c:313-329 | the reset rewinds the send position to the acknowledged one and keeps all else |
| `Sending.ResetSendable` | firmware/flows.c:319-327 | after a reset exactly the unacknowledged bytes are sendable, as far as the window last heard of, counted from what was in flight; never less than what was in flight |
| `Sending.ResetOverrunsIff` | firmware/flows.c:323 | a reset lets the sender pass the peer's window if and only if something was in flight and more than the window is unacknowledged |
| `Sending.EchoesLastStamp` | firmware/flows.c:684-688 | over every run, every outgoing header echoes the time stamp of the last packet in order |
| `Sending.SendRefines` | firmware/flows.c:236-241 | sending advances sequence number and position together |
| `Sending.CountedAckRefines` | firmware/flows.c:392-440 | whatever a packet without payload is found to acknowledge, or the reset it causes, the record follows the stream offsets |
| `Sending.SegmentAckRefines` | firmware/flows.c:580-614 | whatever a segment is found to acknowledge, the record follows the stream offsets |
| `Sending.EveryThirdDuplicate` | firmware/flows.c:425-440 | over every run, the sender is reset by exactly every third duplicate acknowledgement since the last progress or timer, whatever comes between |
| `Sending.CoveredPreservedIff` | firmware/flows.c:450-454 | for every handler and input, `tx_sent <= tx_remote_avail` is preserved if and only if an in-order packet's window covers what its acknowledgement leaves in flight |
| `Sending.RunCoveredIff` | firmware/flows.c:19-33 | in all states of a run the subtraction in `tcp_txavail` is exact, if and only if every window update of the run covers what is in flight |
| `Sending.CoveredIsExact` | firmware/flows.c:19-33 | then the sendable amount is the minimum of buffer and true remaining window |
| `Sending.UncoveredWindowWraps` | firmware/flows.c:450-454 | a concrete packet after which the difference wraps |
| `Sending.FinOnlyIfForcedAndEmpty` | firmware/flows.c:198-248 | a FIN is emitted if and only if the transmission is forced and nothing is left, with length 65535 |
| `FlowRecords.FlowRecord.RunSeg` | firmware/flows.c:521-816 | the in-place segment handler computes `Segment` |
| `FlowRecords.FlowRecord.RunAck` | firmware/flows.c:362-519 | the in-place acknowledgement handler computes `PureAck` |
| `FlowRecords.FlowRecord.RunTx` | firmware/flows.c:179-250 | the in-place transmit handler computes `Transmit` |
| `FlowRecords.FlowRecord.RunAc` | firmware/flows.c:252-311 | the in-place application-bump handler computes `AppBump` |
| `FlowRecords.FlowRecord.RunRetx` | firmware/flows.c:331-360 | the in-place timer handler computes `Retransmit` |
| `FlowRecords.FlowRecord.ResetForRetransmit` | firmware/flows.c:313-329 | the field-by-field reset computes `ResetRetransmit` |
| `FlowRecords.FlowRecord.TakeAck` | firmware/flows.c:585-607 | the field-by-field acknowledgement computes `Acknowledge` |
| `FlowRecords.FlowRecord.CountAck` | firmware/flows.c:392-440 | acknowledgement and duplicate counting compute `CountedAck` |
| `FlowRecords.FlowRecord.StoreSegment` | firmware/flows.c:635-678 | the out-of-order branch computes `StoreOutOfOrder` |
| `FlowRecords.FlowRecord.MergeStored` | firmware/flows.c:720-755 | the catch-up branch computes `CatchUp` |
| `FlowRecords.FlowRecord.DeliverPayload` | firmware/flows.c:704-758 | the in-order branch computes `DeliverInOrder` |
| `FlowRecords.FlowRecord.PlacePayload` | firmware/flows.c:616-776 | everything after trimming computes `PlaceSegment`, and updates window and time stamp only in order |
| `FlowRecords.FlowRecord.Run` | firmware/process.c:248-290 | the dispatch computes `Handle` |
| `FlowCaches.CacheInvisible` | firmware/process.c:210-297 | every run under every choice of victims gives the results, and leaves the records, of a flat table |
| `FlowCaches.RunsFromReset` | firmware/process.c:37-80 | from reset on, the handlers' results are those of the flow table itself |
| `FlowCaches.InitialTransparent` | firmware/process.c:37-80 | the cache after reset stands for the flow table, whatever local memory contains |
| `FlowCaches.MissTransparent` | firmware/process.c:95-160 | a miss changes no flow's current record and puts the requested one into the chosen entry |
| `FlowCaches.MissKeepsValid` | firmware/process.c:95-160 | a miss keeps CAM tags unique and disjoint from the cluster level's tags |
| `FlowCaches.ProcessRefines` | firmware/process.c:230-290 | lookup, miss and handler together refine one step on the flat table |
| `FlowCaches.SentinelWrittenBack` | firmware/process.c:64-79 | seventeen misses in the order of least recent use store what entry 0 contained at reset at an initial tag's index, outside the flow table |
| `FlowCaches.WriteBackIndex` | firmware/process.c:136-140 | a miss stores the current record of what it expels from the cluster level at that index, and nothing else |
| `FlowCaches.WriteBacksKnown` | firmware/process.c:118-140 | over every run under every choice of victims, records are stored only at the flows' own indices and at initial tags that were still cached, each of those at most once |
| `FlowCaches.StoresFromReset` | firmware/process.c:64-79 | from reset on, flows of the table are stored inside it; outside it only the sixteen initial tags, at most once each |
| `CacheThreads.ThreadsFromReset` | firmware/process.c:162-310 | from reset on, for every interleaving of eight threads that pass the order signal round, remember the entry of their lookup across every wait, and miss with least-recently-used victims: every handler computes, in the order the handlers run, what it would on the flow table itself |
| `CacheThreads.SharedCacheInvisible` | firmware/process.c:230-290 | the same from any coherent state and for any choice of victims that spares remembered entries, with several records on their way at once |
| `CacheThreads.LeastRecentSpares` | firmware/process.c:213-238 | in every run, no miss with a least-recently-used victim takes an entry that a thread remembers |
| `CacheThreads.OldestIsSpared` | firmware/process.c:213-238 | the least recently used of sixteen entries is never remembered by one of eight threads |
| `CacheThreads.ActAged` | firmware/process.c:213-233 | every action keeps: at most seven lookups lie between a thread's lookup and its handler, and an entry is as recent as the lookups that led to it |
| `CacheThreads.InPlaceIffSpared` | firmware/process.c:232-238 | an action leaves all remembered entries with their flows if and only if its victim is not remembered |
| `CacheThreads.RememberedVictimMisleads` | firmware/process.c:232-285 | a schedule in which the victim is remembered: the work of one flow runs on another's record and gives a different result |
| `CacheThreads.BeginSettles` | firmware/process.c:109-150 | the part of a miss before the processor is released amounts to the whole miss once the record arrives |
| `CacheThreads.ArriveSettles` | firmware/process.c:152-159 | the arrival of a record changes no flow's current record |
| `CacheThreads.ExecuteSettles` | firmware/process.c:241-285 | a handler on the remembered entry, run once the lock it saw is released, is the handler on the flow's current record |
| `CacheThreads.LookUpCoherent` | firmware/process.c:232-244 | a lookup that spares remembered entries keeps: entries in place, unlocked ones filled, awaited ones held |
| `CacheThreads.ActRefines` | firmware/process.c:230-290 | each action of an interleaving does to the current records what the flat table does for what it executes |
| `ThreadedPath.ThreadedConnection` | firmware/process.c:162-310 | from reset on, under every interleaving of the threads over all flows: a flow whose executed items are the events of a connection has the record and the results of that connection's run, which is consistent |
| `ThreadedPath.FlatProjects` | firmware/process.c:230-290 | for one flow, a run on the flat table is a run of the handlers on its record, with the same results in order |
| `FlowCaches.FlowCache.constructor` | firmware/process.c:37-80 | the two initialisation routines establish the reset state |
| `FlowCaches.FlowCache.HandleMiss` | firmware/process.c:95-160 | the in-place miss handler computes `Miss` |
| `FlowCaches.FlowCache.ProcessItem` | firmware/process.c:230-290 | one iteration of the loop computes `Process` |
| `DataPath.RunSound` | firmware/qman.c:67-327 | in every reachable state of handlers, post-processing and scheduler: `tcp_txavail` <= queue-manager amount + undelivered bumps + one segment per issued item; no flow with an amount lacks a token; the wheel and the counters are right |
| `DataPath.NeverForgotten` | firmware/postprocess.c:270-278 | after every run, a flow that could send has a token queued, a bump undelivered or a transmit item on its way |
| `DataPath.AfterSound` | firmware/qman.c:67-327 | each event keeps all of that |
| `DataPath.AfterAccounted` | firmware/flows.c:297-300 | each event keeps the accounting of sendable bytes |
| `DataPath.ReportCoversGrowth` | firmware/flows.c:780-784 | every handler but transmit reports exactly the growth of what can be sent, also when the window wraps |
| `DataPath.TransmitUses` | firmware/flows.c:198-241 | a transmission lowers `tcp_txavail` by exactly one segment or what was left |
| `DataPath.StepPays` | firmware/qman.c:178-186 | the scheduler takes at most one segment off a flow per issued item |
| `DataPath.StartSound` | user/nicif.c:246 | the idle scheduler in front of flows with nothing to send satisfies all invariants |
| `Scheduler.NextKeepsFlows` | firmware/qman.c:67-327 | no thread's step, in any interleaving, loses the last token of a flow with a positive amount |
| `Scheduler.NextQueues` | firmware/qman.c:67-327 | the same for one flow and one step |
| `Scheduler.CreditKeepsFlows` | firmware/postprocess.c:270-278 | crediting an idle flow sends a token, so none is lost |
| `Scheduler.AddQueues` | firmware/qman.c:30-65 | queueing a token queues its flow and unqueues no other, in FIFO, local FIFO and wheel |
| `Scheduler.RatedGoesToWheel` | firmware/qman.c:49-63 | a flow with a rate goes to the wheel and nowhere else, at the end of one slot between the first open one and 511 ahead; if the product does not wrap, to the slot its rate asks for |
| `Scheduler.UnratedGoesToFifo` | firmware/qman.c:37-47 | a flow without a rate never goes to the wheel; it is last in the FIFO exactly if less than a segment is left or the local FIFO is full, otherwise last in the local FIFO with its capped amount |
| `Scheduler.FasterIsNotLater` | firmware/qman.c:51-57 | fewer cycles to a byte never mean a later slot, while the product does not wrap |
| `Scheduler.LocalTakesFirst` | firmware/qman.c:170-172 | the local FIFO is served from its head, in order |
| `Tokens.NextCounts` | firmware/qman.c:67-327 | every step of every thread conserves the number of every flow's tokens, except that serving a flow of the FIFO or the wheel with nothing left gives one up |
| `Tokens.CreditCounts` | firmware/postprocess.c:270-278 | crediting adds a token exactly if the flow had no amount |
| `Tokens.AddCounts` | firmware/qman.c:30-65 | putting a token into a queue adds exactly it |
| `Tokens.ServedExactly` | firmware/qman.c:177-186 | serving issues one item and takes one segment off, saturating; FIFO and wheel keep the token exactly if an amount is left, and go by that amount; the local FIFO keeps it without its group and goes by its own copy |
| `Scheduler.NextKeepsWheel` | firmware/qman.c:129-149 | every step keeps each wheel slot's entries due exactly when the wheel next stands there |
| `Scheduler.AddKeepsWheel` | firmware/qman.c:49-64 | an entry placed 0 to 511 slots ahead is due after that many advances, also while the current slot is closed |
| `Scheduler.AdvanceKeepsWheel` | firmware/qman.c:129-149 | the wheel leaves only empty slots |
| `Scheduler.ReleasedOnTime` | firmware/qman.c:277-289 | what a wheel thread takes is due exactly now |
| `Scheduler.ClosedSlotDrains` | firmware/qman.c:133-148 | a closed slot never grows, whatever is added meanwhile |
| `Scheduler.NextKeepsBooks` | firmware/qman.c:210-229 | the FIFO counter counts exactly what is in the ring or fetched, and local-FIFO amounts hold a full segment, so the untested decrement of the one and subtraction from the other never go below zero |
| `Scheduler.NextKeepsSafe` | firmware/qman.c:67-327 | every step of every thread keeps all of this: no flow lost, wheel on time, counters right |
| `QueueManagers.QueueManager.constructor` | firmware/qman.c:333-338 | the initial values satisfy all invariants, whatever the local FIFO's memory contains |
| `QueueManagers.QueueManager.PushQmBump` | firmware/postprocess.c:243-279 | keeps the scheduler's invariants, and a flow that got an amount is queued from here on |
| `QueueManagers.QueueManager.FlowAddToQueue` | firmware/qman.c:30-65 | the code puts the token where `Scheduler.RatedGoesToWheel` and `Scheduler.UnratedGoesToFifo` say |
| `QueueManagers.QueueManager.PushBumpStretch` | firmware/postprocess.c:274-278 | no token is lost or doubled on its way into the bump ring, and at no moment is a flow with an amount without one |
| `QueueManagers.QueueManager.BumpStretch` | firmware/qman.c:83-98 | the flow of the bump stays queued while the thread waits for its amount, and the invariants are kept |
| `QueueManagers.QueueManager.FetchFifoStretch` | firmware/qman.c:210-216 | what is fetched and what is left are the FIFO, in order, and the counter counts both; the invariants are kept |
| `QueueManagers.QueueManager.LocalFifoStretch` | firmware/qman.c:159-186 | the untested subtraction does not underflow; one item is issued, the flow's amount drops by one segment or to zero, and the flow is queued again; the invariants are kept |
| `QueueManagers.QueueManager.FifoStretch` | firmware/qman.c:218-247 | the untested decrement leaves the exact count; one item is issued, and the token is kept if and only if an amount is left; the invariants are kept |
| `QueueManagers.QueueManager.ServeSlotStretch` | firmware/qman.c:301-316 | one item is issued, and the token is kept if and only if an amount is left; the invariants are kept |
| `QueueManagers.QueueManager.TakeSlotStretch` | firmware/qman.c:277-292 | a positive counter means a non-empty ring, what is taken is due exactly now, and the invariants are kept |
| `QueueManagers.QueueManager.ReturnStretch` | firmware/qman.c:249-253 | a flow that is put back is queued again, the amount it goes by is not negative, and the invariants are kept |
| `QueueManagers.QueueManager.SelectSlotStretch` | firmware/qman.c:129-149 | a closed slot is left exactly if it is empty, and the next one is open; otherwise the slot is closed; the invariants are kept |
| `QueueManagers.QueueManager.Interleave` | firmware/qman.c:67-327 | any interleaving of the threads' code does exactly what the scheduler's steps do, and after it every flow with an amount has a token, and all invariants hold |
| `QueueManagers.StretchSafe` | firmware/qman.c:67-327 | every stretch of every thread keeps the invariants |
| `DmaCommands.CopiesCircularlyIff` | firmware/postprocess.c:311-343 | the packed command, once unpacked, pairs payload byte i with place (pos + i) mod length and touches nothing else, if and only if it needs one transfer or its start is in the 4 GiB region of the buffer's base |
| `DmaCommands.StraddlingBufferFails` | firmware/dma.h:240-247 | an 8 KiB buffer across 4 GiB and a full segment that wraps: the transfers do not copy circularly |
| `DmaCommands.GigabyteNeverCrosses` | firmware/postprocess.c:311-343 | for a buffer inside one aligned gigabyte the packed command always copies circularly |
| `DmaCommands.FieldsAreDisjoint` | firmware/postprocess.c:331-342 | or-ing the fields is adding them; shifts and masks recover each |
| `DmaCommands.Unpack` | firmware/dma.h:240-253 | the packed word decodes to the two lengths and the upper address |
| `DmaCommands.OneTransfer` | firmware/dma.h:201-220 | a payload that does not wrap is one transfer to its host address |
| `DmaCommands.IssueTwo` | firmware/dma.h:223-255 | the two transfers of a wrapping payload, with the 32-bit sums of the code |
| `DmaCommands.PrepareCommand` | firmware/postprocess.c:282-343 | the code fills in the command, which copies circularly exactly under the stated condition |
| `DmaCommands.WrittenIsPut` | firmware/postprocess.c:311-343 | transfers that copy circularly have the effect of the buffer model's `Put` |
| `PayloadPath.ReceivedThroughDma` | firmware/postprocess.c:311-343 | writing a received packet along the issued transfers gives exactly the receive buffer of the connection's next state |
| `PayloadPath.SentThroughDma` | firmware/postprocess.c:311-343 | a packet filled along the issued transfers carries the application's bytes for the sequence number in its header |
| `PayloadPath.ReceivedFits` | firmware/flows.c:635-711 | a requested receive transfer is never empty and fits the 12-bit length and the buffer |
| `PayloadPath.SentFits` | firmware/flows.c:198-241 | a requested transmit transfer fits, except for the FIN whose length wraps |
| `Buffers.ReadPut` | firmware/postprocess.c:312-316 | a circular write changes exactly its own range |
| `Buffers.PutWrapped` | firmware/postprocess.c:312-316 | writing at a wrapped 32-bit position is writing at the unbounded one |
| `Buffers.GetWrapped` | firmware/postprocess.c:312-316 | reading at a wrapped 32-bit position is reading at the unbounded one |
| `Buffers.PowerOfTwoDivides` | firmware/postprocess.c:313-315 | a power-of-two length divides 2^32, which is why masking survives the wrap of the position |
| `DmaPipeline.LabelsCount` | firmware/dma_rx.c:185-315 | the twenty labels are a slot counter modulo 4 with an occupancy from 0 to 4 |
| `DmaPipeline.Loop.Command` | firmware/dma_rx.c:109-119 | a new command never overwrites the backup of one in flight, and joins the FIFO at its end |
| `DmaPipeline.Loop.Completion` | firmware/dma_rx.c:121-126 | the awaited transfer is the oldest, and its saved command is forwarded |
| `DmaPipeline.Loop.Run` | firmware/dma_rx.c:185-315 | over any sequence of arrivals and completions, the loop processes exactly the commands that a FIFO of four places accepts, and forwards them exactly once, as many as that FIFO gives back, in the order processed |
| `Timeouts.RelTimeExact` | util/timeout.c:243-275 | `rel_time` on wrapped stamps is the true signed difference for distances below half the range |
| `Timeouts.RelTimeAtMiddle` | util/timeout.c:243-275 | its value at exactly half the range, for every clock value |
| `Timeouts.TimeoutManager.constructor` | util/timeout.c:44-52 | the empty manager satisfies the invariant |
| `Timeouts.TimeoutManager.MoveDue` | util/timeout.c:201-231 | moves exactly the timeouts due by true deadline, in order, keeping both lists well linked |
| `Timeouts.TimeoutManager.Tick` | util/timeout.c:201-231 | the invariant holds at the new clock, and what is left pending lies in the future |
| `Timeouts.TimeoutManager.FindPlace` | util/timeout.c:127-130 | the backward search finds the place by true deadline, despite the signed/unsigned comparison |
| `Timeouts.TimeoutManager.InsertPending` | util/timeout.c:132-146 | the links are spliced so that the list is the old one with the timeout at that place |
| `Timeouts.TimeoutManager.ArmTs` | util/timeout.c:110-147 | arming keeps both lists linked and sorted by true deadline; exactly this timeout becomes live, and its stamp carries the type |
| `Timeouts.TimeoutManager.Bypass` | util/timeout.c:149-182 | the remaining chain is linked both ways and the ends are right, whichever list it is |
| `Timeouts.TimeoutManager.Unlink` | util/timeout.c:149-182 | exactly this timeout leaves its list; neither abort is reached |
| `Timeouts.TimeoutManager.Disarm` | util/timeout.c:149-182 | disarming keeps the invariant; exactly this timeout stops being live |
| `Timeouts.TimeoutManager.FireFirst` | util/timeout.c:89-99 | what fires is armed, not early, the earliest of all armed, fires for the first time, and hands over the type it was armed with |
| `Timeouts.TimeoutManager.React` | util/timeout.c:97-97 | whatever the handler arms, also for the first time, or disarms, the invariant holds and nothing fires |
| `Timeouts.TimeoutManager.PollTs` | util/timeout.c:78-102 | fires at most 64 per call and leaves nothing due unless it fired 64; the whole history stays free of early, repeated and out-of-order firings |
| `Timeouts.TimeoutManager.Next` | util/timeout.c:184-199 | the true time to the earliest deadline of all armed timeouts; all ones if and only if none is armed |
| `AppContexts.RunLogged` | firmware/atx.c:149-154 | over every run each context's descriptors are fetched exactly once, in order from where the host started its ring, from their ring places |
| `AppContexts.MovesUp` | firmware/atx.c:140-161 | a queued context reaches the head after exactly as many services as there were contexts ahead, whatever else happens |
| `AppContexts.QueueBounded` | firmware/atx.c:29-31 | the 32-entry ring never overflows |
| `AppContexts.ServeOk` | firmware/atx.c:144-162 | serving keeps: queued exactly once if and only if descriptors are known and not fetched |
| `AppContexts.PollOk` | firmware/atx.c:183-190 | polling keeps it |
| `AppContexts.PollQueues` | firmware/atx.c:183-190 | after a poll a context is queued if and only if it has a descriptor to fetch, at the end if it was not queued, and the others keep their order |
| `AppContexts.QueuedIffPending` | firmware/atx.c:144-190 | over every run, a context polled since its activation is queued if and only if a known descriptor was not fetched |
| `AppContexts.FetchedInTime` | firmware/atx.c:140-161 | a known descriptor is fetched after at most as many services as contexts are ahead and a full round for each descriptor before it, whatever else happens |
| `AppContexts.PublishedIsFetched` | firmware/atx.c:140-190 | what the host has published and a poll has seen is fetched, within 32 services for each descriptor up to it |
| `AppContexts.ActivateOk` | firmware/atx.c:74-85 | activation keeps it, whatever consumer index the host has set up |
| `AppContexts.AppScheduler.constructor` | firmware/atx.c:208-213 | the initial ring, bit mask and indices represent the empty rotation |
| `AppContexts.AppScheduler.ServeNext` | firmware/atx.c:144-162 | ring, bit mask and wrapped indices follow the rotation; the fetched place is the consumer index |
| `AppContexts.AppScheduler.PollContext` | firmware/atx.c:180-190 | ring, bit mask and wrapped indices follow a poll of the rotation, which queues the context exactly if it has work (`AppContexts.PollQueues`); comparing wrapped indices is comparing counts |
| `AppContexts.AppScheduler.ActivateContext` | firmware/atx.c:74-85 | the same for activation with the host's consumer and producer index |
| `PacketMemory.TiledDisjoint` | user/packetmem.c:136-190 | blocks that tile a zone are pairwise disjoint, free or live |
| `PacketMemory.ReleasedTiles` | user/packetmem.c:136-190 | inserting and merging a freed block keeps the zone tiled, byte by byte |
| `PacketMemory.ReleasedMerges` | user/packetmem.c:160-190 | exactly the neighbours at the insertion point that touch are merged |
| `PacketMemory.InsertPointExact` | user/packetmem.c:141-147 | all blocks passed by the search but the first start below the freed one, and the one behind the insertion point does not |
| `PacketMemory.Allocator.Init` | user/packetmem.c:32-63 | succeeds exactly for one to sixteen whole zones whose handles can all be allocated, each then one free block |
| `PacketMemory.Allocator.ZoneAlloc` | user/packetmem.c:65-116 | takes the front of the first block that fits, keeps the zone tiled; succeeds if and only if some block fits and either a handle is available or the first that fits has exactly the length |
| `PacketMemory.Allocator.Alloc` | user/packetmem.c:118-134 | with handles available, fails only if no free block of any zone is long enough; then nothing changed |
| `PacketMemory.Allocator.Free` | user/packetmem.c:136-190 | the search finds the insertion point; exactly this block leaves the live ones; the zone stays tiled (the links are in `FreeLists.FreeList.Release`) |
| `FreeLists.FreeList.TakeFit` | user/packetmem.c:65-116 | on the linked list: the first handle that fits is unlinked or split, its contents change as the functions on sequences say, and what is handed out is not reachable from the list |
| `FreeLists.FreeList.Release` | user/packetmem.c:136-190 | on the linked list: the handle is spliced in and merged as `Released` says; exactly the handles merged away go to the heap, and none of them is reachable |
| `FreeLists.FreeList.MergeItems` | user/packetmem.c:161-190 | merging with predecessor and successor keeps the chain, and every handle is either in it or freed |
| `FreeLists.FreeList.FindPlace` | user/packetmem.c:141-147 | the search over the links stops at the insertion point |
| `FreeLists.FreeList.Unlink` | user/packetmem.c:86-92 | exactly the handle found leaves the chain |
| `SlowPathRing.ReceiveRing.constructor` | firmware/slowpath_if.c:91-108 | the empty ring satisfies the invariant |
| `SlowPathRing.ReceiveRing.Acquire` | firmware/slowpath_if.c:91-108 | a slot is given out exactly if fewer than `rx_len` − 1 packets are outstanding by the cached head, and only if the host has cleared it |
| `SlowPathRing.ReceiveRing.Refresh` | firmware/slowpath_if.c:101-104 | re-reading the head at any time keeps the invariant |
| `SlowPathRing.ReceiveRing.Fill` | firmware/slowpath_if.c:110-137 | whatever the host did since the slot was acquired, the descriptor is written over a cleared one, and the packet cannot have been consumed |
| `SlowPathRing.ReceiveRing.HostPoll` | user/nicif.c:560-601 | the host takes a packet if and only if the next one has arrived, exactly once and in the order the slots were acquired |
| `SlowPathRing.ReceiveRing.HostPublish` | user/nicif.c:603-607 | publishing the head at any later time keeps the invariant |
| `SlowPathRing.ReceiveRing.Interleave` | firmware/slowpath_if.c:91-138 | for any interleaving of card and host, with stale heads and descriptors arriving in any order: the ring does exactly what a queue without a ring does, the host has a prefix of the packets in slot order, each once and only after it arrived, and at most `rx_len` − 1 are outstanding |
| `Dctcp.RunBounded` | user/cc.c:246-318 | over every run of intervals the window stays in [1400, `tx_len`], slow start never returns, and `ecn_rate` stays within any bounds of its start and the samples |
| `Dctcp.TargetBounds` | user/cc.c:262-304 | congestion never enlarges the window and takes at most half of it; without congestion it does not shrink |
| `Dctcp.EwmaBetween` | user/cc.c:284-289 | no 64-bit operation of the average overflows, and its formula stays between old value and sample |
| `Dctcp.EwmaMoves` | user/cc.c:284-289 | the average moves towards the sample by exactly the weighted distance, rounded down |
| `Dctcp.EwmaApproaches` | user/cc.c:284-289 | it never moves away from or past the sample, and does move upwards while the weighted distance is at least the fixed-point 1, downwards while there is any |
| `Dctcp.AverageSettles` | user/cc.c:279-291 | under a constant sample it settles: within as many intervals as the distance, less than the fixed-point 1 of weighted distance is left, none from above |
| `Dctcp.SampleExact` | user/cc.c:280-282 | the sample is the marked fraction of the acknowledged bytes, at most the whole |
| `Dctcp.CutExact` | user/cc.c:293-295 | a cut takes the window times half the average, rounded up |
| `Dctcp.IncrementExact` | user/cc.c:298-300 | one segment is added for each window of acknowledged bytes, rounded down |
| `Dctcp.WindowAfter` | user/cc.c:260-304 | the window after an interval, by what happened in it: slow start adds what was acknowledged, losses halve, marks cut by half the average, otherwise a segment is added for each window |
| `Dctcp.AverageAfter` | user/cc.c:276-291 | the average moves by the weighted distance to the marked fraction, except after losses, without acknowledged bytes and in undisturbed slow start |
| `Dctcp.MarkedIntervalCuts` | user/cc.c:279-295 | a fully marked interval never lowers the average and strictly cuts the window once the average is at least 2 |
| `Dctcp.StepClamps` | user/cc.c:306-318 | the window is the target if that is between one segment and the send buffer, and the nearer bound otherwise; slow start ends at the first congestion; retransmissions are counted afresh |
| `Dctcp.CutBounds` | user/cc.c:292-295 | an ECN cut leaves between half and all of the window, without 64-bit overflow |
| `Dctcp.IncrementBound` | user/cc.c:296-301 | the additive increase fits 32 bits |
| `Dctcp.Connection.constructor` | user/cc.c:236-244 | the initial control state |
| `Dctcp.Connection.Update` | user/cc.c:246-318 | the in-place update computes `Step`, whose window and average are those of `Dctcp.WindowAfter`, `Dctcp.AverageAfter` and `Dctcp.StepClamps` |

## Left out

- Hardware access: intrinsics, signals, CSRs, PCIe, interrupts, checksum and hash engines; rings are sequences that do not overflow, transfers are atomic, and an operation on a ring or on memory takes effect when it is issued.
- Flow-record cache: memory operations take effect in issue order; the CAM gives up the least recently used entry, where a hit and a write of a tag count as use (eight contexts per engine, `firmware/Makefile.nfp.config:52`); flow id 0 is not used, as the source demands.  Two items of one flow may run in another order than they were looked up; the results are those of the order in which they run.
- Flow record: flag bits other than RXFIN and TXFIN, and result words that are not read under the flags of the result.
- `tcp_valid_rxseq`, which the configuration compiles out, and the alternatives of `SKIP_ACK`, `ALLOW_FUTURE_ACKS`, `FORCE_SEND_WINUPDATE` and `QM_BYPASS` other than the configured ones.
- Connections.RunOk: for what the stream contains, assumes segments less than 2^31 from the expected byte, a peer that until its FIN is received sends only its own stream with the FIN at its end, and an application that frees only what it received and writes only free space; acknowledgement numbers, windows and time stamps are arbitrary.  What holds without any assumption on the peer is in `AnyPeer`.
- EndToEnd.StreamsArrive: frames older than 2^31 bytes have left the network, and applications do not close; both ends are of this kind.
- EndToEnd.Progress: one more read, not the whole stream: window updates are taken only from packets in order, so how far the window reaches depends on what the network lets through.
- TX FIN emission beyond `Sending.FinOnlyIfForcedAndEmpty`: the FIN has no sequence number of its own in the sending model, because the code reserves none in the data path.
- That data never passes the peer's window: false after a retransmission reset, which adds `tx_sent` to `tx_remote_avail`; exactly when is `Sending.ResetOverrunsIff`.
- Scheduler: transmit credits; the delay that a rate yields when the 32-bit product wraps (it is modelled so, but none is claimed); the queue manager's amount is unbounded and does not wrap; issuing an item and taking it off the amount are one step, since no swap separates them; an entry leaves a wheel slot's ring in the step that counts it off.
- Masks `& (n - 1)` are written as remainders for power-of-two n, and `|` of disjoint fields as `+`, which `DmaCommands.FieldsAreDisjoint` justifies.
- DmaCommands.CopiesCircularlyIff: payload lengths from 1 to 4095, which post-processing guarantees except for the FIN length of 65535.
- Timeouts.TimeoutManager.PollTs: the handler is a script of arm and disarm requests per firing, carried out as far as the armed flags and the clock allow.
- Timeouts.TimeoutManager.ArmTs: clock gaps and delays below half the range; the source aborts on longer delays.
- Application contexts: the descriptor pool and the DMA of descriptors; a poll happens only after activation, and the host never laps a queue.
- PacketMemory.Allocator.Init: what is left behind when a handle cannot be allocated half way.
- PacketMemory.Allocator.Free: takes a handle that is live; works on the contents of the free lists, whose links are in `FreeLists`; sortedness and full coalescing do not hold in the code and are not claimed.
- Slow-path ring: only the receive direction.
- Dctcp.Connection.Update: for `tx_len` of at least one segment and a window of at least one, which the source asserts; the conversion of window to rate, rate-based DCTCP and TIMELY.
- Reuse of flow ids while old copies are cached, the flow-hash cache, flow-id allocation, sockets, ARP, packet building, configuration, the kernel driver and the library for applications.
