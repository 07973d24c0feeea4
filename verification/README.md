# A verified model of the srtrust protocol core

srtrust implements the SRT transport protocol (draft-sharabayko-srt-01) as a sans-I/O state machine: datagrams, clock
readings and timer expiries go in, datagrams and events come out. This project models that core in Dafny and proves
what the protocol is for. Nothing here is executed.

How the model is built:

- Packets have unbounded true indices. What travels is the index modulo 2^31; `SeqNumbers.Wire` makes one from the
  other and every circular comparison of the code is proved to be integer comparison within half the number space.
  32-bit microsecond timestamps are treated the same way in `Timestamps`.
- The objects the code updates in place are classes over wire values (`RecvBuffer`, `SendBuffer`, `Reassembler`,
  `TsbpdWrap`, `Sender`, `Receiver`, `LiveCc`, `SessionCrypto`, `KeyRotation`, `Clip`, `FecEncoder`, `FecReceiver`,
  `Connection`, `Listener`). Each method is proved to do what a specification function over true indices does. No
  method requires numbers to be close to one another.
- The run-level results are about those specification functions: sender runs (`SenderRuns`, `Pacing`), receiver runs
  (`ReceiverRuns`, `PlayTimes`), both ends over a network that loses, duplicates and reorders (`ArqSystem`,
  `ArqResults`, `LossChain`), key rotation over a lossy link (`RekeySystem`, `RekeyReverse`), FEC reception (`FecRuns`,
  `FecRefinement`) and connection set-up (`HandshakeRuns`, `HandshakeSystem`).
- Time is a natural number of microseconds. Timers are not modelled: any handler may fire at any time.

The main results, for every run and every input:

1. Delivery is safe end to end (`ArqResults.DeliveryIsSafe`), acknowledgements are sound (`AcksAreSound`), and the
   application gets exactly the messages all of whose packets arrived, byte for byte and in order
   (`MessagesArriveWhole`).
2. An orderly close truncates nothing (`ArqResults.CloseNeverTruncates`) and queues every message before Closed
   (`CloseDeliversMessages`).
3. Every originated packet is buffered, acknowledged or shed, and a shed one is announced once
   (`SenderRuns.EveryPacketAccounted`); a loss report is answered exactly, across the wire and along every run
   (`LossChain.ReportAnsweredInRun`); resends of one packet are a round trip apart (`SenderRuns.RetransmitsSpaced`).
4. What the receiver holds and has queued fits its flow window against any peer (`ReceiverRuns.MemoryBounded`), and
   its drop counter is exact if and only if no step skips exactly half the number space (`AccountingConserved`).
5. Play times are exact across timestamp wraps (`PlayTimes.PlayTimeExact`); originals leave at least the sum of the
   periods in force apart (`Pacing.ReleasesAddUp`), which keeps the configured byte rate if and only if each packet is
   no larger than its period buys (`ByteRateIff`).
6. Under key rotation every packet of the rotating side opens with the key it was sealed with
   (`RekeySystem.EveryPacketDecrypts`); a packet of the other side opens if and only if no key was staged in its slot
   that the peer had not installed when it sealed it (`RekeyReverse.ReverseOpensExactly`).
7. The FEC receiver, on 31-bit numbers, rebuilds exactly the packet that was lost, exactly once when it can
   (`FecRefinement.ReceiverRecoversOnce`).
8. A caller connects if and only if the right answers came in the right order (`HandshakeRuns.ConnectsExactly`), and
   then agrees with some accepted connection; on latency if and only if the greater of two different latencies fits
   the wire field (`HandshakeSystem.ConnectedAgrees`).
9. Decoding undoes encoding for every packet (`PacketCodec.PacketRoundTrip`), and accepted data packets re-encode to
   the same bytes (`DataReencodes`).

Where the code and the documentation differ the code is followed, with a failing input and the exact condition under
which it does meet its promise:

- The drop counter at a skip of exactly 2^30 (`AccountingFailsAtHalf`, `AccountingConserved`).
- The range test on ranges of half the number space or more (`InRangeFails`, `InRangeIff`).
- Stream IDs that end in NUL (`StreamIdRoundTrip`).
- Latencies that are not whole milliseconds below 65536 ms (`LatencyAgreement`).
- Data sent against the direction of a key rotation (`ReverseCanFail`, `ReverseOpensExactly`).
- The byte rate when packets grow between acknowledgements (`ByteRateCanFail`, `ByteRateIff`).
- The receive buffer's storage, which no window limits (`StorageExceedsWindow`, `StorageFits`).

## Model

| member | source | states |
|---|---|---|
| SeqNumbers.OffsetExact | crates/srt-protocol/src/seq.rs:99-110 | the signed offset of two wire numbers is the true distance exactly when that distance is in [-2^30, 2^30) |
| SeqNumbers.CmpExact | crates/srt-protocol/src/seq.rs:80-86 | circular comparison is integer comparison, antisymmetric, for indices less than 2^30 apart |
| SeqNumbers.CmpAtHalf | crates/srt-protocol/src/seq.rs:80-86 | at exactly 2^30 each of two numbers compares as less than the other |
| SeqNumbers.ResolveExact | crates/srt-protocol/src/seq.rs:99-110 | the index recovered from a wire number relative to a reference is the true one exactly inside the half window |
| SeqNumbers.ResolveBackExact | crates/srt-protocol/src/seq.rs:99-110 | the same for comparisons whose left operand is the reference |
| SeqNumbers.NewExact | crates/srt-protocol/src/seq.rs:52-54 | masking a number moved back is the wire value of the index moved back |
| SeqNumbers.NextExact | crates/srt-protocol/src/seq.rs:64-67 | the successor on the wire is the wire value of the next index, across the wrap |
| SeqNumbers.PrevExact | crates/srt-protocol/src/seq.rs:71-73 | the predecessor on the wire is the wire value of the previous index, across the wrap |
| SeqNumbers.AddExact | crates/srt-protocol/src/seq.rs:114-124 | addition on the wire is addition of indices for any count |
| Timestamps.DiffExact | crates/srt-protocol/src/timestamp.rs:61-63 | the wrapping difference of two stamps is the true difference exactly within half a period |
| Timestamps.TsbpdWrap.constructor | crates/srt-protocol/src/timestamp.rs:103-108 | tracking starts at the first stamp |
| Timestamps.TsbpdWrap.Observe | crates/srt-protocol/src/timestamp.rs:112-123 | the tracked newest time moves only forward, to the nearest time with the observed stamp |
| Timestamps.TsbpdWrap.OffsetOf | crates/srt-protocol/src/timestamp.rs:130-132 | a stamp's offset is the time nearest to the newest one with that stamp |
| Timestamps.TrackIsNewest | crates/srt-protocol/src/timestamp.rs:94-133 | over runs of any length and any number of wraps the tracker equals the unbounded newest time up to the first stamp's origin |
| Timestamps.ElapsedExact | crates/srt-protocol/src/timestamp.rs:130-132 | offset minus first stamp is the true elapsed sender time, across any number of wraps |
| Timestamps.StragglerIgnored | crates/srt-protocol/src/timestamp.rs:112-123 | a late stamp, even from before a wrap, changes nothing |
| RecvBuffers.RecvBuffer.constructor | crates/srt-protocol/src/recv_buffer.rs:45-51 | nothing held, base at the initial number |
| RecvBuffers.RecvBuffer.Occupancy | crates/srt-protocol/src/recv_buffer.rs:61-63 | the counter equals the number of packets held |
| RecvBuffers.OccupancyIsHeld | crates/srt-protocol/src/recv_buffer.rs:61-63 | slots in use and packets held are equally many |
| RecvBuffers.RecvBuffer.StorageExact | crates/srt-protocol/src/recv_buffer.rs:89-104 | the slots kept are exactly those from the base to the highest held packet, held or not |
| RecvBuffers.RecvBuffer.StorageFits | crates/srt-protocol/src/recv_buffer.rs:89-104 | storage fits a window if and only if no held packet is that far past the base |
| RecvBuffers.RecvBuffer.ReceivedAckPoint | crates/srt-protocol/src/recv_buffer.rs:73-76 | the wire number of the least index neither passed nor held |
| RecvBuffers.RecvBuffer.HasGaps | crates/srt-protocol/src/recv_buffer.rs:81-85 | true exactly when some index below a held packet is absent |
| RecvBuffers.GapsIffLossList | crates/srt-protocol/src/recv_buffer.rs:81-85 | the gap test holds exactly when the loss list is non-empty |
| RecvBuffers.RecvBuffer.Insert | crates/srt-protocol/src/recv_buffer.rs:89-104 | stored under its own index exactly when that is not passed and not held; otherwise nothing changes |
| RecvBuffers.RecvBuffer.Peek | crates/srt-protocol/src/recv_buffer.rs:110-114 | the packet of least index held, if any |
| RecvBuffers.RecvBuffer.Pop | crates/srt-protocol/src/recv_buffer.rs:121-130 | removes the packet of least index and passes over the gap before it |
| RecvBuffers.RecvBuffer.PopInOrder | crates/srt-protocol/src/recv_buffer.rs:136-142 | removes the packet at the base only; a gap blocks it |
| RecvBuffers.RecvBuffer.DropRange | crates/srt-protocol/src/recv_buffer.rs:153-172 | moves the base past the range and forgets what lies below, unless the range ends before or starts after the base |
| RecvBuffers.AdvanceFor | crates/srt-protocol/src/recv_buffer.rs:153-172 | how far a drop range moves the base, on true indices |
| RecvBuffers.RecvBuffer.MissingRanges | crates/srt-protocol/src/recv_buffer.rs:176-197 | maximal ascending ranges covering exactly the absent indices up to the highest held |
| RecvBuffers.WalkGaps | crates/srt-protocol/src/recv_buffer.rs:176-197 | the slot walk yields exactly the absent indices as separated ascending ranges |
| RecvBuffers.RecvBuffer.MissingAged | crates/srt-protocol/src/recv_buffer.rs:204-230 | for tolerances up to 2^30, exactly the absent indices at least the tolerance below the highest held |
| RecvBuffers.TrimLossList | crates/srt-protocol/src/recv_buffer.rs:204-230 | trimming ranges on the wire reports exactly the gaps at or below the threshold |
| RecvBuffers.NeverRetreats | crates/srt-protocol/src/recv_buffer.rs:89-172 | over any run of operations neither the base nor the acknowledgement point moves back, and what was covered stays so |
| SendBuffers.SendBuffer.constructor | crates/srt-protocol/src/send_buffer.rs:40-42 | an empty buffer starting at a given index |
| SendBuffers.SendBuffer.Push | crates/srt-protocol/src/send_buffer.rs:79-90 | appends the next index in a contiguous window |
| SendBuffers.SendBuffer.DropFront | crates/srt-protocol/src/send_buffer.rs:68-70 | releases the oldest packet only |
| SendBuffers.SendBuffer.Ack | crates/srt-protocol/src/send_buffer.rs:95-106 | releases exactly the packets below the acknowledged index, none when it is stale |
| SendBuffers.SendBuffer.IndexOf | crates/srt-protocol/src/send_buffer.rs:113-118 | finds a number exactly when its index is buffered, at its own place |
| SendBuffers.LookupComplete | crates/srt-protocol/src/send_buffer.rs:113-118 | no buffered packet is missed by the offset lookup |
| SendBuffers.SendBuffer.Get | crates/srt-protocol/src/send_buffer.rs:122-124 | finds a packet exactly when one with that number is buffered |
| SendBuffers.SendBuffer.FoundAt | crates/srt-protocol/src/send_buffer.rs:113-131 | the lookups of a buffered number return its own packet and its own last retransmission |
| SendBuffers.SendBuffer.MarkRetransmitted | crates/srt-protocol/src/send_buffer.rs:135-141 | stamps that packet and no other |
| Reassembly.MaxPayload | crates/srt-protocol/src/connection.rs:696-702 | the payload budget is never zero |
| Reassembly.FragmentMessage | crates/srt-protocol/src/connection.rs:706-734 | the fragments concatenate to the message, are full-sized but the last, carry its number, and are positioned first, middle, last or single |
| Reassembly.Reassembler.Push | crates/srt-protocol/src/connection.rs:114-147 | one step of the reassembly fold: joins only consecutive fragments of one message |
| Reassembly.Reassembler.Reset | crates/srt-protocol/src/connection.rs:149-152 | forgets the partial message |
| Reassembly.FeedMessage | crates/srt-protocol/src/connection.rs:104-153 | whatever subsequence of a message's fragments arrives, it is output exactly when all of them did |
| Reassembly.ReassemblyExact | crates/srt-protocol/src/connection.rs:104-153 | fed any subsequence of fragmented messages, the reassembler outputs exactly the whole ones, in order; with no loss, all of them |
| ArqSender.Sender.constructor | crates/srt-protocol/src/connection/arq.rs:70-96 | a connected sender with an empty buffer at the initial number |
| ArqSender.Sender.SendData | crates/srt-protocol/src/connection/arq.rs:153-222 | assigns the next index, buffers and emits the packet |
| ArqSender.Sender.DropTooLate | crates/srt-protocol/src/connection/arq.rs:361-401 | sheds exactly the longest prefix past its budget and announces it in one drop request |
| ArqSender.Sender.RetransmitRange | crates/srt-protocol/src/connection/arq.rs:446-477 | resends the buffered, due packets of one range, R flag set, and stamps them |
| ArqSender.Sender.OnAck | crates/srt-protocol/src/connection/arq.rs:305-343 | retires what is acknowledged, sheds, adopts the recomputed period and completes a drained close |
| ArqSender.Sender.OnNak | crates/srt-protocol/src/connection/arq.rs:348-354 | sheds first, then answers each range |
| ArqSender.Sender.OnExpTimer | crates/srt-protocol/src/connection/arq.rs:419-435 | while connected with packets in flight, sheds and resends the whole buffer, gated |
| ArqSender.Sender.Pace | crates/srt-protocol/src/connection/arq.rs:259-300 | releases due packets up to the burst cap and keeps or re-synchronises the slot |
| ArqSender.Sender.Send | crates/srt-protocol/src/connection.rs:670-692 | a message is fragmented and sent or queued for pacing |
| ArqSender.Sender.Close | crates/srt-protocol/src/connection.rs:767-788 | shuts at once when drained, otherwise lingers |
| ArqSender.Sender.FinalizeShutdown | crates/srt-protocol/src/connection.rs:792-806 | SHUTDOWN is emitted and the connection ends |
| ArqSender.Sender.FinishCloseIfDrained | crates/srt-protocol/src/connection.rs:811-815 | a lingering close completes only when buffer and queue are empty |
| ArqSender.Sender.OnLingerTimer | crates/srt-protocol/src/connection.rs:819-823 | a lingering close is forced |
| ArqReceiver.Receiver.constructor | crates/srt-protocol/src/connection/arq.rs:70-96 | a connected receiver whose base is the peer's initial number |
| ArqReceiver.Receiver.AvailableRecvBuffer | crates/srt-protocol/src/connection/arq.rs:814-819 | the window less packets held and events not drained, never negative |
| ArqReceiver.Receiver.InsertData | crates/srt-protocol/src/connection/arq.rs:545-629 | refuses without room or for passed or held numbers; otherwise stores, delivers what is due, sends a light ACK in turn and reports exactly the aged losses when they changed |
| ArqReceiver.Receiver.TrackReorder | crates/srt-protocol/src/connection/arq.rs:639-660 | the reorder tolerance rises to the displacement seen and no further, within its bound, and falls by one only after fifty arrivals in order |
| ArqReceiver.Receiver.DeliverTsbpd | crates/srt-protocol/src/connection/arq.rs:665-697 | delivers in index order everything whose play time has come, counting skipped numbers as dropped |
| ArqReceiver.Receiver.OnDropReq | crates/srt-protocol/src/connection/arq.rs:406-415 | passes over the announced range, counts the advance, then delivers what is due |
| ArqReceiver.Receiver.OnAckTimer | crates/srt-protocol/src/connection/arq.rs:732-781 | acknowledges the received point unless nothing changed since |
| ArqReceiver.Receiver.OnNakTimer | crates/srt-protocol/src/connection/arq.rs:789-807 | re-reports exactly the aged losses |
| ArqReceiver.Receiver.ReportLoss | crates/srt-protocol/src/connection/arq.rs:841-854 | a loss report carries exactly the aged missing ranges |
| ArqReceiver.Receiver.OnShutdown | crates/srt-protocol/src/connection.rs:581-594 | the contiguous prefix is flushed before Closed is queued |
| ArqReceiver.Receiver.PollEvent | crates/srt-protocol/src/connection.rs:855-857 | events drain in order |
| SenderRuns.RunKeeps | crates/srt-protocol/src/connection/arq.rs:153-477 | in every reachable sender state the buffer is the unretired tail of what was originated, every data datagram is an original up to the R flag, and originals plus queue spell the accepted messages |
| SenderRuns.EveryPacketAccounted | crates/srt-protocol/src/connection/arq.rs:361-401 | each originated packet is buffered, acknowledged or shed, exclusively; exactly the shed ones are covered by a drop request, each by one |
| SenderRuns.StaleAckReleasesNothing | crates/srt-protocol/src/send_buffer.rs:95-106 | an acknowledgement at or behind the front changes nothing |
| SenderRuns.RetransmitsSpaced | crates/srt-protocol/src/connection/arq.rs:446-477 | two successive retransmissions of one packet are at least the round trip then in force apart |
| Pacing.LiveCc.constructor | crates/srt-protocol/src/live_cc.rs:39-48 | the average starts at the largest payload and the period is derived from it |
| Pacing.LiveCc.OnPacketSent | crates/srt-protocol/src/live_cc.rs:57-61 | the average moves an eighth of the way to the sample; the period does not move |
| Pacing.LiveCc.OnAck | crates/srt-protocol/src/live_cc.rs:65-67 | the period follows the average only here |
| Pacing.PeriodAtLeast | crates/srt-protocol/src/live_cc.rs:70-76 | no average gives a period below that of an empty payload |
| Pacing.RateNeverExceeded | crates/srt-protocol/src/connection/arq.rs:259-300 | the (k+1)-th release of a run comes at least k smallest periods after the first, across late timers, capped bursts and re-synchronisation |
| Pacing.ReleasesAddUp | crates/srt-protocol/src/connection/arq.rs:259-300 | whatever the periods and however they change, every original leaves no earlier than the sum of the periods in force at all earlier releases after the first |
| Pacing.LiveRateNeverExceeded | crates/srt-protocol/src/live_cc.rs:39-76 | with the period driven by LiveCC and the smallest one above zero, by any time at most one original more has left than smallest periods have passed since the first |
| Pacing.ByteRateIff | crates/srt-protocol/src/live_cc.rs:70-76 | the configured byte rate is kept between any two slots of every schedule if and only if each packet that another follows is no larger than its own period buys |
| Pacing.PaidRunsKeepTheRate | crates/srt-protocol/src/connection/arq.rs:259-300 | every run in which the packets pay for themselves in that sense keeps the configured byte rate |
| Pacing.LargerNeverPays | crates/srt-protocol/src/live_cc.rs:70-76 | a packet larger than the rounded average its period was computed from never does |
| Pacing.ByteRateCanFail | crates/srt-protocol/src/live_cc.rs:57-67 | a run in which full packets after a small one and an acknowledgement exceed the configured byte rate |
| LossReports.InRangeCircular | crates/srt-protocol/src/connection/arq.rs:889-891 | for a range shorter than half the number space the test holds exactly of the numbers the range names on the wire |
| LossReports.InRangeExact | crates/srt-protocol/src/connection/arq.rs:889-891 | it is integer membership for every index that shares no number with another index of the range |
| LossReports.InRangeIff | crates/srt-protocol/src/connection/arq.rs:889-891 | the test is integer membership around a range if and only if the range is shorter than half the number space |
| LossReports.InRangeFails | crates/srt-protocol/src/connection/arq.rs:889-891 | for every longer range the range's own start tests as outside it |
| LossReports.InRangeAliases | crates/srt-protocol/src/connection/arq.rs:889-891 | the indices just outside that neighbourhood do share numbers with the range and test as inside |
| LossReports.RangeExact | crates/srt-protocol/src/connection/arq.rs:446-477 | one range resends exactly its buffered, due packets, once each, in rising order |
| LossReports.ReportAnsweredExactly | crates/srt-protocol/src/connection/arq.rs:348-354 | a whole report resends exactly the buffered, due packets it covers, once each, in rising order |
| LossReports.AnyReportAnswered | crates/srt-protocol/src/connection/arq.rs:348-354 | any report whatever, of any ranges in any order, resends exactly the buffered, due packets whose numbers some range names, once each under a positive gate |
| LossChain.LossesResentExactly | crates/srt-protocol/src/connection/arq.rs:841-854 | encoded, decoded and answered, a report resends exactly what the receiver lacks, the sender holds and is due |
| LossChain.ReportsAreReachable | crates/srt-protocol/src/recv_buffer.rs:176-230 | whatever a receiver can report, a sender within half the number space of it reads exactly |
| LossChain.ReportAnsweredInRun | crates/srt-protocol/src/connection/arq.rs:348-354 | along every run, a report made at one point and taken in at any later one first sheds what is past its budget and then resends exactly what was missing, is still held and is due |
| ReceiverRuns.RunKeeps | crates/srt-protocol/src/connection/arq.rs:486-807 | in every reachable receiver state held packets sit at their own index above the base, deliveries rise, queued messages are what reassembly of the deliveries gives, and acknowledgements are honest |
| ReceiverRuns.MemoryBounded | crates/srt-protocol/src/connection/arq.rs:545-629 | packets held plus messages not drained never exceed the flow window, whatever the peer sends |
| ReceiverRuns.StorageExceedsWindow | crates/srt-protocol/src/recv_buffer.rs:89-104 | one packet far ahead makes the buffer 2^30 slots long under a window of one packet |
| ReceiverRuns.CountedExact | crates/srt-protocol/src/connection/arq.rs:665-697 | what one step adds to the drop counter is exact if and only if the base did not move by exactly 2^30 |
| ReceiverRuns.AccountingConserved | crates/srt-protocol/src/connection/arq.rs:406-415 | advance of the base = delivered + dropped over a run, if and only if no step skipped exactly 2^30 |
| ReceiverRuns.AccountingFailsAtHalf | crates/srt-protocol/src/connection/arq.rs:665-697 | a concrete first packet whose gap goes uncounted |
| PlayTimes.StepClock | crates/srt-protocol/src/connection/arq.rs:545-629 | only storing a packet moves the play-time clock |
| PlayTimes.PlayTimeExact | crates/srt-protocol/src/connection/arq.rs:706-718 | after any run a packet plays at the first arrival plus elapsed sender time, drift and latency, however often the stamps wrapped |
| ArqSystem.Reachable | crates/srt-protocol/src/connection/arq.rs:153-807 | the joint invariant of both ends holds in every reachable state of the lossy, duplicating, reordering network |
| ArqResults.MessagesCanArrive | crates/srt-protocol/src/connection/arq.rs:153-222 | the runs these results speak of include one that carries a message across |
| ArqResults.DeliveryIsSafe | crates/srt-protocol/src/connection/arq.rs:545-697 | deliveries have strictly rising indices and each is the packet first sent under that index |
| ArqResults.AcksAreSound | crates/srt-protocol/src/connection/arq.rs:305-343 | whatever the sender counts as acknowledged the receiver holds or has passed |
| ArqResults.MessagesArriveWhole | crates/srt-protocol/src/connection.rs:104-153 | the messages given to the application are exactly those submitted whose packets were all delivered, in order |
| ArqResults.FinishDrains | crates/srt-protocol/src/connection.rs:811-815 | a close that is not forced emits SHUTDOWN only with buffer and queue empty |
| ArqResults.DrainedStays | crates/srt-protocol/src/connection.rs:792-806 | after that nothing more is originated |
| ArqResults.CloseNeverTruncates | crates/srt-protocol/src/connection.rs:581-594 | if the sender drained and shed nothing, SHUTDOWN finds no gap and everything is handed on before Closed |
| ArqResults.CloseDeliversMessages | crates/srt-protocol/src/connection.rs:581-594 | then every submitted message is queued before Closed if, and gaps being small only if, the receiver had delivered as many packets as its base had advanced |
| ArqResults.CompleteIffCount | crates/srt-protocol/src/connection/arq.rs:665-697 | rising deliveries within bounds are complete exactly when there are as many as the bounds allow |
| LossLists.Encode | crates/srt-protocol/src/loss_list.rs:66-76 | appends the specified bytes to the buffer |
| LossLists.Decode | crates/srt-protocol/src/loss_list.rs:93-115 | the cursor loop computes the specified parse, including every error |
| LossLists.RoundTrip | crates/srt-protocol/src/loss_list.rs:66-115 | every list of ranges survives the wire |
| LossLists.Canonical | crates/srt-protocol/src/loss_list.rs:93-115 | an accepted list means the same after re-encoding |
| HandshakeCodec.EncodeStreamId | crates/srt-protocol/src/handshake.rs:485-496 | pads to four bytes and reverses each block |
| HandshakeCodec.DecodeStreamId | crates/srt-protocol/src/handshake.rs:503-511 | reverses each block back and strips trailing NULs |
| HandshakeCodec.StreamIdRoundTrip | crates/srt-protocol/src/handshake.rs:485-511 | a Stream ID survives if and only if it does not end in NUL |
| HandshakeCodec.EncodeExtensions | crates/srt-protocol/src/handshake.rs:335-376 | appends each extension's header and content |
| HandshakeCodec.DecodeExtensions | crates/srt-protocol/src/handshake.rs:424-473 | the walk over extensions computes the specified parse, including every error |
| HandshakeCodec.ExtensionsRoundTrip | crates/srt-protocol/src/handshake.rs:335-376 | any list of well-formed extensions survives the wire |
| HandshakeCodec.HandshakeRoundTrip | crates/srt-protocol/src/handshake.rs:407-473 | decoding undoes encoding for every well-formed handshake |
| PacketCodec.UnpackPacked | crates/srt-protocol/src/packet.rs:91-146 | position, order, key and R bits and the message number survive packing |
| PacketCodec.PackUnpacked | crates/srt-protocol/src/packet.rs:263-298 | an accepted flag word is the word of its fields |
| PacketCodec.DataRoundTrip | crates/srt-protocol/src/packet.rs:221-298 | decoding undoes encoding for every data packet |
| PacketCodec.AckRoundTrip | crates/srt-protocol/src/control.rs:302-334 | full, small and light acknowledgements survive the wire |
| PacketCodec.ControlRoundTrip | crates/srt-protocol/src/control.rs:204-298 | decoding undoes encoding for every well-formed control packet |
| PacketCodec.PacketRoundTrip | crates/srt-protocol/src/packet.rs:221-298 | decoding undoes encoding for every well-formed packet |
| PacketCodec.DataReencodes | crates/srt-protocol/src/packet.rs:263-298 | an accepted data packet re-encodes to the bytes received |
| PacketCodec.AadIgnoresRetransmission | crates/srt-protocol/src/packet.rs:178-195 | the authenticated header is the original's encoded header, the same for every retransmission |
| Rekey.SessionCrypto.FromInitial | crates/srt-protocol/src/crypto/mod.rs:47-58 | the active slot is populated whichever slots the handshake delivered |
| Rekey.SessionCrypto.Install | crates/srt-protocol/src/crypto/mod.rs:75-80 | replaces one slot only |
| Rekey.SessionCrypto.InstallUnwrapped | crates/srt-protocol/src/crypto/mod.rs:62-69 | replaces the slots delivered and no other |
| Rekey.SessionCrypto.Decrypt | crates/srt-protocol/src/crypto/mod.rs:137-151 | yields the plaintext exactly when the flagged slot holds the sealing key |
| Rekey.KeyRotation.AccountKeyAndMaybeRotate | crates/srt-protocol/src/connection/rekey.rs:52-80 | switches only to a confirmed key at the refresh point, and asks for a new one only with no rotation under way |
| Rekey.KeyRotation.ProvideRekey | crates/srt-protocol/src/connection/rekey.rs:85-119 | stages and announces a solicited key, unconfirmed |
| Rekey.KeyRotation.HandleKmRsp | crates/srt-protocol/src/connection/rekey.rs:124-133 | only the echo of the pending announcement confirms it |
| Rekey.KeyRotation.ResendPendingKm | crates/srt-protocol/src/connection/rekey.rs:139-150 | re-announces a bounded number of times, then gives up |
| Rekey.KeyRotation.HandleKmReq | crates/srt-protocol/src/connection/rekey.rs:154-182 | installs and echoes what unwraps under the passphrase, ignores the rest |
| Rekey.KeyRotation.SendPacket | crates/srt-protocol/src/crypto/mod.rs:109-116 | the slot used for encryption is always populated |
| Rekey.MachineHolds | crates/srt-protocol/src/connection/rekey.rs:52-182 | whatever happens, at most one rotation stage is open, the active and any switch target slot are populated, and each key left behind encrypted at least the refresh count |
| RekeySystem.EveryPacketDecrypts | crates/srt-protocol/src/connection/rekey.rs:52-182 | over a FIFO link losing anything, each first transmission that arrives opens with the key it was sealed with |
| RekeySystem.SenderAlwaysReady | crates/srt-protocol/src/connection/rekey.rs:52-80 | the peer already holds the very key each packet is encrypted with |
| RekeyReverse.ReverseOpensExactly | crates/srt-protocol/src/connection/rekey.rs:85-119 | over every run, a packet of the side that does not rotate opens on arrival if and only if the peer was up to date with its slot when it sealed it and no key was staged there since; otherwise a different key meets it |
| RekeyReverse.StagedCounts | crates/srt-protocol/src/connection/rekey.rs:85-119 | the count of keys staged in a slot moves exactly when a solicited key is supplied while the other slot is active |
| RekeyReverse.FirstRotationHarmless | crates/srt-protocol/src/crypto/mod.rs:83-105 | until a second key is staged in the even slot every packet of the other side opens |
| RekeyReverse.ReverseCanFail | crates/srt-protocol/src/connection/rekey.rs:85-119 | a run, every step enabled, at whose end a packet of the other side meets a different key |
| Fec.XorInto | crates/srt-protocol/src/fec.rs:117-124 | the buffer becomes its XOR with the zero-padded bytes; excess bytes are dropped |
| Fec.Clip.Add | crates/srt-protocol/src/fec.rs:117-124 | XORs length, flags, timestamp and payload of one packet |
| Fec.Clip.Reset | crates/srt-protocol/src/fec.rs:135-140 | back to all zeros |
| Fec.FecEncoder.Feed | crates/srt-protocol/src/fec.rs:164-175 | a parity comes out exactly when a whole number of groups has been fed and is the XOR of the last group alone |
| Fec.RecoverRow | crates/srt-protocol/src/fec.rs:184-216 | the loop computes the parity with all present members XOR-ed out, or nothing unless one is missing |
| Fec.ResidueIsMissing | crates/srt-protocol/src/fec.rs:184-216 | whatever the missing member's place, what is left is that member alone |
| Fec.RecoveryExact | crates/srt-protocol/src/fec.rs:184-216 | the missing member is rebuilt in all fields if and only if its length field, capped at the clip size, is its payload length |
| Fec.ParityRoundTrip | crates/srt-protocol/src/fec.rs:225-257 | a parity survives its wire form with its index |
| FecReceivers.FecReceiver.ObserveData | crates/srt-protocol/src/fec.rs:325-352 | stores, retries every group that can contain the number, then evicts |
| FecReceivers.FecReceiver.ObserveParity | crates/srt-protocol/src/fec.rs:358-380 | ignores malformed and non-row parities; otherwise stores under the group base, tries that group, then evicts |
| FecReceivers.FecReceiver.TryGroupAt | crates/srt-protocol/src/fec.rs:386-429 | rebuilds exactly when the parity is held and one member is missing, and consumes the parity |
| FecReceivers.FecReceiver.Evict | crates/srt-protocol/src/fec.rs:433-441 | forgets exactly what is a window or more behind |
| FecRuns.GroupSound | crates/srt-protocol/src/fec.rs:386-429 | what a group yields is the packet that was lost |
| FecRuns.RecoveriesAreGenuine | crates/srt-protocol/src/fec.rs:299-442 | over any run every rebuilt packet equals the one sent under that number |
| FecRuns.RecoveredExactlyOnce | crates/srt-protocol/src/fec.rs:299-442 | a packet that never arrives is rebuilt exactly once if its parity and all other members are seen inside the window, in any order and with repetitions, otherwise not at all, however long the stream goes on with other groups |
| FecRuns.RowsDisjoint | crates/srt-protocol/src/fec.rs:145-176 | consecutive groups from the first packet on do not overlap |
| FecRuns.EncoderIsGenuine | crates/srt-protocol/src/fec.rs:145-176 | what the encoder emits after whole groups of the stream is a genuine parity of the group it ends |
| FecRefinement.RunRefines | crates/srt-protocol/src/fec.rs:299-442 | keyed by 31-bit numbers the receiver holds and rebuilds exactly what the index-keyed model does, on streams of any length |
| FecRefinement.ReceiverRecoversOnce | crates/srt-protocol/src/fec.rs:299-442 | the receiver on 31-bit numbers rebuilds, under the number of a packet that never arrives, exactly that packet, once, when its group allows it, and nothing otherwise |
| Handshaking.Connection.FeedHandshake | crates/srt-protocol/src/connection.rs:534-570 | only a conforming answer of the current phase advances it, queueing one conclusion that echoes the cookie or taking over the peer's parameters; only a rejection fails it; a finished caller does not change |
| Handshaking.Connection.HandleHandshakeTimer | crates/srt-protocol/src/connection.rs:640-664 | repeats the kept handshake at most once and fails only on expiry, before the end is reached only |
| HandshakeRuns.ConnectsExactly | crates/srt-protocol/src/connection.rs:534-570 | a caller is connected if and only if a conforming induction answer was followed by a conforming conclusion answer before any rejection or timeout, and has failed if and only if one of those came first |
| HandshakeRuns.ConnectedParameters | crates/srt-protocol/src/connection/setup.rs:111-159 | a connected caller holds for good the peer id, receive base and latency of the first answer that could connect it |
| HandshakeRuns.CallerSends | crates/srt-protocol/src/connection/setup.rs:52-107 | all a caller ever sends is its induction request and one and the same conclusion, echoing the first cookie it was given; the request of the current phase is the one kept for the timer |
| HandshakeRuns.CallerStarts | crates/srt-protocol/src/connection/setup.rs:33-48 | a new caller has exactly its induction request queued, and holds keys exactly when encryption is configured |
| HandshakeRuns.SendsOneAtATime | crates/srt-protocol/src/connection.rs:640-664 | each input queues at most one handshake, an unexpired timer exactly the current one, and a connected or failed caller never changes again |
| HandshakeRuns.AcceptorRepeats | crates/srt-protocol/src/connection.rs:610-619 | an accepted connection never changes again and sends one and the same response, once and again per repeated conclusion |
| HandshakeRuns.FlagsMatch | crates/srt-protocol/src/connection/setup.rs:67-107 | the extension flags announce exactly the extensions the conclusion carries |
| HandshakeRuns.ConclusionSurvives | crates/srt-protocol/src/connection/setup.rs:67-107 | what the acceptor decodes is the conclusion the caller sent |
| HandshakeSystem.AcceptBuilds | crates/srt-protocol/src/connection.rs:459-529 | an accepted connection mirrors its caller's conclusion: ids, adopted initial number, keys or none, latency |
| HandshakeSystem.ConclusionIsFromCaller | crates/srt-protocol/src/connection/setup.rs:67-107 | what the acceptor reads out of a conclusion is what the caller was configured with |
| HandshakeSystem.LatencyAgreement | crates/srt-protocol/src/connection/setup.rs:142-159 | both sides use the same latency if and only if configured alike or the greater is whole milliseconds below 65536; then it is the greater |
| HandshakeSystem.MillisExact | crates/srt-protocol/src/connection/setup.rs:213-215 | the wire field never overstates a latency and is exact if and only if it is whole milliseconds below 65536 |
| HandshakeSystem.ConnectedAgrees | crates/srt-protocol/src/connection/setup.rs:111-120 | whenever the caller is connected some accepted connection agrees on ids, numbers of both directions and keys, with the exact condition for the latency |
| Listeners.Listener.OnInduction | crates/srt-protocol/src/listener.rs:179-200 | answers with a cookie that is valid now and keeps no state about the peer |
| Listeners.Listener.OnConclusion | crates/srt-protocol/src/listener.rs:208-227 | nothing without a valid cookie; a key mismatch is rejected and never surfaced; otherwise accepted under a fresh id or parked |
| Listeners.Listener.ParkConclusion | crates/srt-protocol/src/listener.rs:235-257 | one entry per address; a repetition refreshes it and surfaces no second request |
| Listeners.Listener.AcceptPending | crates/srt-protocol/src/listener.rs:275-295 | takes the entry out and builds the connection from exactly that conclusion under a fresh id, or rejects it with the mapped reason |
| Listeners.Listener.Reject | crates/srt-protocol/src/listener.rs:316-342 | queues one rejection with the mapped reason for that address |
| Listeners.Listener.Feed | crates/srt-protocol/src/listener.rs:159-177 | expired entries go first; an induction is answered with a valid cookie; a valid conclusion is accepted under a fresh id, parked and surfaced once, or rejected; anything else changes nothing that is kept |
| Listeners.Listener.MintSocketId | crates/srt-protocol/src/listener.rs:137-145 | never zero, never the listener's own, never an id minted before until the counter has gone round |
| Listeners.NextId | crates/srt-protocol/src/listener.rs:137-145 | the search ends within three steps of the counter |
| Listeners.IdInjective | crates/srt-protocol/src/listener.rs:137-145 | different counter values give different ids |
| Listeners.CookieLifetime | crates/srt-protocol/src/listener.rs:357-373 | a cookie is accepted exactly in its own and the next quantum, or by a hash collision with a quantum then in force; hence for at least a minute, and after two minutes only by collision |

## Left out

- The async I/O crate, statistics, rate estimation and configuration parsing: they would only add easy members.
- AES, PBKDF2, key wrap and the cookie hash: abstract. A sealed payload opens with its own key; Key Material unwraps
  under its own passphrase; the hash is a parameter.
- Timers and the RTT and drift estimators: handlers fire at any time; the round-trip gate, the drift correction and the
  recomputed pacing period are arguments. Their values are unconstrained except where a statement says so.
- Time below a microsecond and the overflow of 64-bit and instant arithmetic.
- Metrics in acknowledgements, and encryption and FEC inside the ARQ model: `Sender` and `Receiver` carry plain
  payloads; `Rekey` and the FEC modules are separate.
- UTF-8: whether a Stream ID is valid is a parameter of decoding.
- FEC re-injection into the receive path, which treats a rebuilt packet as a solo message.
- Rejecting a parked conclusion on request (`reject_pending`), which only adds an easy member.
- ArqResults.DeliveryIsSafe: datagrams are delivered while their index is within 2^30 of the receiver's base, the window in which 31-bit numbers name packets uniquely; older ones are not replayed by the modelled network.
- ArqResults.MessagesArriveWhole: for deliveries whose gaps stay below 2^31 packets, the span in which the reassembler can tell numbers apart.
- ArqResults.CloseNeverTruncates: for closes that complete by draining with nothing shed; a forced or shedding close loses what it sheds.
- LossReports.ReportAnsweredExactly: for ranges shorter than half the number space and buffers that share no number with another index of them; `AnyReportAnswered` covers every other report in terms of numbers, and `ReportAnsweredInRun` derives both conditions along runs.
- Pacing.LiveRateNeverExceeded: over `real` averages, not floating point; empty above 44,000,000 bytes a second, where the smallest period rounds to zero and `ReleasesAddUp` is what holds.
- RekeySystem.EveryPacketDecrypts: one side rotates, and the link does not reorder or duplicate. Retransmissions keep their old ciphertext and are not covered.
- FecRuns.RecoveredExactlyOnce: for packets that never arrive themselves and groups all of whose observations fall inside their history window of 8 groups.
- FecRefinement.ReceiverRecoversOnce: for observations within one number space of the packet, so that its number names it alone.
- FecRefinement.RunRefines: while each arrival is within 2^30 of all history still held.
- HandshakeSystem.ConnectedAgrees: one caller; handshakes of other callers go elsewhere. The caller's own Key Material never unwraps to other keys.
- Listeners.Listener.MintSocketId: an id can repeat once the 32-bit counter has gone round, as in the code.
- RecvBuffers.RecvBuffer.MissingAged: promises nothing about the ranges for tolerances above 2^30, where the circular threshold comparison wraps; the tolerance in use never exceeds 32.
- SendBuffers.SendBuffer.Push: requires fewer than 2^30 packets in the buffer, beyond which 31-bit numbers cannot order them; the code leaves this to the flow window.
- ArqSender.Sender.Send: requires buffer, queue and fragments to stay within 2^30 together, for the same reason.
- ArqSender.Sender.SendData: encryption, FEC parity and the congestion controller's average are modelled apart, in `Rekey`, `Fec` and `Pacing`.
- ArqSender.Sender.OnAck: the peer's advertised window and the expiry timer are not modelled.
- ArqSender.Sender.Close: closing before the connection is established, and the Closed event of the closing side, are not modelled.
- ArqSender.Sender.FinalizeShutdown: the Closed event of the closing side is not modelled.
- ArqReceiver.Receiver.InsertData: payloads are plain; decryption is modelled apart, in `Rekey`.
- ArqReceiver.Receiver.OnAckTimer: the metrics of a full acknowledgement and the table of pending ones are not modelled.
