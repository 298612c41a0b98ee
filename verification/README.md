# STB-eBPF: a verified model of the probe's data path

STB-eBPF is a network probe for set-top boxes. A C probe captures frames, keeps a
table of flows and ships events over TCP. A Go agent decodes DNS, MySQL and Redis
traffic, aggregates flows and posts batches of events to an edge server. This project
models the parts of both programs that carry state or parse octets, and proves what
they keep over every input and every run.

## How the model is organised

Each protocol has a file of values (a state, its steps, what a run of steps does) and,
where the program updates things in place, a file with a class whose methods are proved
to perform exactly those steps. Theorems over all runs are stated about the steps and so
hold of the classes.

| files | what they model |
|---|---|
| `DnsName`, `DnsMessage`, `DnsSiblings` | `parseDNSName` with compression pointers, `ParseDNSPacket`, and the three other DNS decoders of the repository |
| `EdgeProtocol`, `EdgeClient` | the batching client under a mutex, for any number of goroutines, and its slice over a shared array |
| `FlowTable`, `FlowRuns`, `FlowTotals`, `FlowEvents`, `Retransmit`, `DupAck`, `FlowTracker`, `MainLoop` | the fixed-size flow table, its byte accounting, the events each flow raises, retransmission marks and duplicate ACKs, and the probe's main loop around it |
| `TcpProtocol`, `TcpClient` | the reconnecting TCP client with back-off, sockets and byte counters |
| `PacketParser`, `CollectorDecode`, `PacketAgreement` | the frame parser, the sequence-number extractor and the Go decoder of the same headers |
| `CollectorProtocol`, `Collector`, `CollectorPath` | per-flow aggregation with the snapshot-and-swap flush, and a datagram's way through it |
| `MySql`, `Redis` | MySQL packets and length-encoded integers; the RESP array decoder |
| `PortScan`, `Sched` | the port-scan detector; the CPU run-time analyser |
| `Bytes`, `Bits`, `Octets`, `Layout`, `Chains`, `Subsequence`, `Modular`, `Wrappers` | shared definitions: octets, their bits and exclusive or, "these octets stand here", maximal chains of records, subsequences, arithmetic modulo 2^64, `Option` |

Clocks, random numbers, the network and unseen code are parameters: the time of each
step (`ts`, `now`), the sampling coins, whether a POST was answered with 200 (`ok`), the
spare capacity `append` allocates (`spare`), the outcome of each socket call (`Net`,
`Reply`), the octets captured and the `/proc/net` entries of a round (`Round`), the
octets behind a slice up to its capacity (`behind`), the HTTP and DNS
parsers of the collector, and the trimming and upper-casing of Redis words.
Integer widths are written out: 64-bit byte and packet counters, the 32-bit
retransmission counter and sequence mark, 16-bit payload lengths, the signed 64-bit
result of a length-encoded integer and the signed 32-bit shift of the back-off.

## What turned out not to hold

For each of these the code is modelled as it is, a concrete failing case is proved, and
the exact condition under which the property does hold is proved for all inputs.

- Events do not stay in order when two POSTs overlap: `OrderKeptWithoutOverlap`,
  `OverlapReorders`, `OverlapCanReorder`.
- A flow that takes over a freed slot starts from the counters left in it:
  `NewFlowStartsCleanIff`, `FreedSlotKeepsItsBytes`.
- A segment that fills a gap is reported as a retransmission; and octets received in a
  reported segment, across the end of the sequence space, before a repeated SYN or
  together with a FIN can come again unreported: `ReportIsRightIff`,
  `TrackedReportsRightIff`, `GapFillIsReported`, `OverhangIsMissed`, `WrapIsMissed`,
  `SecondSynIsMissed`, `FinDataIsMissed`.
- The legacy DNS decoder crashes on a payload cut before its query type, unless the slice
  has spare capacity: `LegacyCrashesIff`, `EmptyQuestionCrashes`.
- A duplicate ACK is compared with the ACK 4096 before it, of any flow, instead of the
  flow's previous one: `RightIffFirst`, `RepetitionMissed`.
- `tcp_client_connect` on a client that was marked disconnected but still holds its
  socket leaks that socket: `ConnectLeaksIff`, `LeakIsReachable`. The reconnect path
  closes it first, so a run leaks one socket for each such connect and no other:
  `EveryRunOwnsItsSocket`.
- Bytes of a send that fails part-way are neither counted as sent nor as lost:
  `CountersExactIff`, `RunCountersExactIff`, `PartialSendIsNotCounted`.
- An attempt at clock value 0 is not remembered, so the back-off does not apply to it:
  `ClockZeroIsNotRemembered`, `HeldBackIff`.
- The collector's DNS decoder reads the query type one octet late after an uncompressed
  name, and reads the class instead after a name that ends in a pointer:
  `CollectorTypeIff`, `CollectorTypeWrongForInternet`, `AddressQueryMisread`.
- A length-encoded integer of 2^63 or more comes out negative: `LenIntRoundTrip`,
  `LargeLenIntIsNegative`.
- The run time of a process scheduled out again after an entry earlier than its last exit
  is counted twice: `StaleStartCountsTwice`, `RunTimeIsBusyTimeIff`.

Where comments and code disagree the model follows the code: `tcp_client.c` announces
that a missing newline is appended to what is sent, and it is not; `main.c:608` announces cleanup
every 60 seconds and it runs with the 30-second metrics; `flow_tracker.c:217` describes an
out-of-order case the code treats like an in-order one, and `flow_tracker.c:222` a comparison with the
previous ACK that the code does not make.

## Model

| member | source | states |
|---|---|---|
| `DnsName.Decode` | pkg/protocol/dns.go:178-228 | a decoded name always ends after where it began and inside the packet, although pointers may lead anywhere |
| `DnsName.ParseName` | pkg/protocol/dns.go:178-228 | the loop with its jump flag, saved offset and jump counter computes the recursive decoder, on every packet and offset |
| `DnsName.DecodeIsSound` | pkg/protocol/dns.go:178-228 | every decoded name has a derivation in the packet, within the jump limit, ending where the decoder says |
| `DnsName.DecodeIsComplete` | pkg/protocol/dns.go:178-228 | every name that can be derived within the jump limit is decoded, with the right end |
| `DnsName.DecodesIffDerivable` | pkg/protocol/dns.go:178-228 | decoding succeeds with exactly these labels and this end if and only if the packet derives them |
| `DnsName.DerivationIsUnique` | pkg/protocol/dns.go:178-228 | a packet derives at most one name at an offset, whatever pointers it holds |
| `DnsName.RefusedIffTooManyHops` | pkg/protocol/dns.go:197-213 | a derivable name is refused if and only if it follows more pointers than the limit |
| `DnsName.EncodePointer` | pkg/protocol/dns.go:198-202 | the two octets of a pointer read back as the target they were made from |
| `DnsName.DecodeLabels` | pkg/protocol/dns.go:214-221 | labels written before any continuation are read back and put in front of what the continuation decodes to |
| `DnsName.DecodePlain` | pkg/protocol/dns.go:178-228 | an uncompressed name decodes to its labels wherever it stands, and ends after its root octet |
| `DnsName.DecodeCompressed` | pkg/protocol/dns.go:197-213 | labels followed by a pointer decode to those labels plus the target's, ending after its two octets; they fail exactly when the target fails |
| `DnsName.PlainRoundTrip` | pkg/protocol/dns.go:178-228 | decoding inverts encoding for every list of valid labels, between any octets before and after |
| `DnsName.CompressedRoundTrip` | pkg/protocol/dns.go:178-228 | the same for a name ended by a pointer to any suffix already in the packet |
| `DnsName.PointerFreeIsEncoding` | pkg/protocol/dns.go:178-228 | a name decoded without pointers is, octet for octet, the encoding of its labels |
| `DnsMessage.ParseRecord` | pkg/protocol/dns.go:153-168 | one turn of the answer loop reads the record at an offset, or nothing when a field does not fit |
| `DnsMessage.ParseAnswers` | pkg/protocol/dns.go:150-170 | the answer loop returns the records read one after another, up to the announced count |
| `DnsMessage.ParsePacket` | pkg/protocol/dns.go:113-175 | the packet parser agrees with its specification on every payload, short and malformed ones included |
| `DnsMessage.ReadRecordIffRecordAt` | pkg/protocol/dns.go:153-168 | a record is read if and only if one with a derivable owner name stands there, with the same fields and end |
| `DnsMessage.AnswersAreTheLongestList` | pkg/protocol/dns.go:150-170 | the answers are laid out back to back, stop early only where no record stands, and every other such list is a prefix of them |
| `DnsMessage.AnswersFromIff` | pkg/protocol/dns.go:150-170 | a list is the answers read from an offset if and only if it is laid out there back to back and either full or followed by no record |
| `DnsMessage.PacketIff` | pkg/protocol/dns.go:113-175 | the parser gives an event, question counts and cut or malformed answers of every kind included, if and only if the event describes the payload: identifier, code, question and the longest list of answers after it |
| `DnsMessage.AnswersFit` | pkg/protocol/dns.go:150-170 | a packet cannot yield more answers than its length allows, whatever count its header announces |
| `DnsMessage.EncodeHeader` | pkg/protocol/dns.go:123-134 | the encoded header is 12 octets and reads back field by field |
| `DnsMessage.ResourceDecodes` | pkg/protocol/dns.go:153-168 | a resource encoded anywhere in a packet, owner compressed or not, is read back with its pointer resolved |
| `DnsMessage.MessageRoundTrip` | pkg/protocol/dns.go:113-175 | parsing inverts encoding for every message whose owner pointers lead to names, all answers included |
| `DnsMessage.QuestionSuffixHolds` | pkg/protocol/dns.go:197-213 | a pointer into any label boundary of the question name leads to that suffix, so real messages meet the round trip's condition |
| `DnsSiblings.ScanLabels` | pkg/protocol/dns.go:382-399 | the label scan of the simpler decoders stops inside the packet, or at its end |
| `DnsSiblings.ScanIff` | pkg/protocol/dns.go:382-399 | the scan gives these labels, this offset and this reason to stop if and only if the octets there are those labels and what follows is that reason |
| `DnsSiblings.LegacyReports` | pkg/protocol/dns.go:366-405 | whatever stops the scan, the legacy decoder reports the labels read and the two octets after the root, the pointer or the cut, or crashes when they are not there |
| `DnsSiblings.CollectorReports` | internal/collector/protocol.go:199-228 | whatever stops the scan, the collector reports the labels read and the two octets two after it, four after a pointer, if they are there |
| `DnsSiblings.ProbeReports` | src/main.c:60-106 | whatever stops the scan, the C decoder reports the first 255 octets of the labels read and, unless a pointer stopped it, the two octets behind them |
| `DnsSiblings.NothingReported` | pkg/protocol/dns.go:366-380 | each of the three reports nothing if and only if the header is cut or announces no question |
| `DnsSiblings.ParseLegacy` | pkg/protocol/dns.go:366-405 | the legacy decoder matches its specification, including the octets it reads behind the payload when the slice has spare capacity, and the crash when it has not |
| `DnsSiblings.LegacyCrashesIff` | pkg/protocol/dns.go:382-401 | on every question whose name decodes it crashes if and only if the type does not fit the slice's capacity; without spare capacity, if and only if the full parser refuses the packet |
| `DnsSiblings.EmptyQuestionCrashes` | pkg/protocol/dns.go:401-401 | a concrete header without its question that crashes it |
| `DnsSiblings.ParseCollected` | internal/collector/protocol.go:199-228 | the collector's decoder matches its specification on every payload |
| `DnsSiblings.AppendClipped` | src/main.c:76-81 | appending to the fixed name buffer keeps the first 255 octets of the text so far and never writes past it |
| `DnsSiblings.FillName` | src/main.c:62-84 | the C loop leaves in its buffer the dotted name of the scanned labels, clipped to 255 octets, and the offset where it stopped |
| `DnsSiblings.ParseProbe` | src/main.c:60-106 | the C decoder of queries matches its specification on every payload |
| `DnsSiblings.DecodeExtendsScan` | pkg/protocol/dns.go:178-228 | wherever the full decoder succeeds, the simple scan reads a prefix of its labels and stops at the root or at the first pointer |
| `DnsSiblings.SiblingsCompleteIff` | pkg/protocol/dns.go:382-399 | the simpler decoders lose no label if and only if the name ends at the root or its first pointer leads to the empty name |
| `DnsSiblings.LegacyAgreesOnType` | pkg/protocol/dns.go:366-405 | on every packet with a question the full parser accepts, compressed or not, and whatever stands behind it, the legacy decoder does not crash, agrees on type and response code, and reports a prefix of the name |
| `DnsSiblings.FourDecodersAgree` | internal/collector/protocol.go:199-228 | on an uncompressed question all four decoders report the same name (the C one clipped) and three the same type; the collector's type is the octets one position later |
| `DnsSiblings.AsksIff` | pkg/protocol/dns.go:138-148 | the full parser reports a question if and only if its name decodes and its type stands behind it |
| `DnsSiblings.CollectorTypeIff` | internal/collector/protocol.go:205-216 | on every question the full parser accepts, the collector's type is right if and only if, after a root octet, the class's high octet is present and the type is 257 times it; or, after a pointer, the class is present and equal to the type |
| `DnsSiblings.CollectorTypeWrongForInternet` | internal/collector/protocol.go:215-216 | for class IN a non-zero type is read right if and only if a pointer ends the name and the type is 1 |
| `DnsSiblings.AddressQueryMisread` | internal/collector/protocol.go:199-228 | a concrete address query whose type 1 is reported as 256 |
| `EdgeProtocol.StepBalances` | internal/output/edge.go:53-85 | each locked section keeps, for every event, its count in the batch, in flight, acknowledged and dropped equal to its count accepted |
| `EdgeProtocol.StepBounded` | internal/output/edge.go:147-187 | each locked section keeps the batch within 10000 plus the events of writers about to flush |
| `EdgeProtocol.EveryInterleaving` | internal/output/edge.go:53-187 | for any number of goroutines and any interleaving of writes, flushes and failed POSTs: no event is duplicated or lost unaccounted, and the batch stays bounded |
| `EdgeProtocol.QuietBatchWithinCap` | internal/output/edge.go:163-168 | whenever no writer is about to flush, the batch holds at most 10000 events |
| `EdgeProtocol.RefuseHistory` | internal/output/edge.go:162-181 | with one POST at a time a failed POST puts its events back in front in order and drops only the newest beyond the cap |
| `EdgeProtocol.RunKeepsOrder` | internal/output/edge.go:147-187 | every step of a run without overlapping POSTs keeps sent and held events in the order written |
| `EdgeProtocol.OrderKeptWithoutOverlap` | internal/output/edge.go:147-187 | from the start, without overlapping POSTs, what is acknowledged, in flight and batched is a subsequence of what was written |
| `EdgeProtocol.OverlapCanReorder` | internal/output/edge.go:147-187 | whenever two non-empty POSTs overlap and events are distinct, one of the two completion orders breaks the order written |
| `EdgeProtocol.OverlapReorders` | internal/output/edge.go:147-187 | a reachable state with two POSTs whose completion order does break it |
| `EdgeProtocol.TwoPostsReachable` | internal/output/edge.go:147-156 | two writers and two flushes reach that state from the start |
| `EdgeProtocol.CallsWithinCap` | internal/output/edge.go:67-85 | a single caller never sees more than 10000 events kept, and a successful flush leaves none |
| `EdgeProtocol.WritePostsAt2000` | internal/output/edge.go:57-85 | a write posts nothing while fewer than 2000 events are held; from then on it posts all, oldest first, and a refusal keeps the oldest 10000 and drops the others |
| `EdgeClient.Sampled` | internal/output/edge.go:31-40 | sampling keeps a subsequence, and everything when all rates are 1 |
| `EdgeClient.Rates` | internal/output/edge.go:23-29 | the rate of each category, and that every other one is kept whole |
| `EdgeClient.SampleOne` | internal/output/edge.go:31-40 | an event is kept if and only if its coin, drawn from [0, 1), is below the rate of its category |
| `EdgeClient.Sample` | internal/output/edge.go:67-76 | the filter loop keeps exactly the sampled events |
| `EdgeClient.Client.constructor` | internal/output/edge.go:42-51 | a new client is the initial state of the protocol |
| `EdgeClient.Client.Append` | internal/output/edge.go:77-78 | appending in place or into a new array extends the batch, and writes no array a flush in progress still reads |
| `EdgeClient.Client.Write` | internal/output/edge.go:57-60 | the locked section of a write is the protocol's write step |
| `EdgeClient.Client.BeginFlush` | internal/output/edge.go:148-156 | taking the snapshot and re-slicing the batch to length zero is the begin step; the snapshot is its own array |
| `EdgeClient.Client.Rejoin` | internal/output/edge.go:176-176 | appending the batch to the full snapshot gives snapshot and batch in order, in the snapshot's array only when the batch is empty |
| `EdgeClient.Client.FinishFlush` | internal/output/edge.go:184-186 | a POST answered with 200 is the success step |
| `EdgeClient.Client.Requeue` | internal/output/edge.go:175-181 | appending the batch to the snapshot and truncating is the refusal step, with the snapshot's array becoming the batch or a new one |
| `EdgeClient.Client.Flush` | internal/output/edge.go:147-187 | a whole flush with nobody else running is begin followed by success or refusal |
| `EdgeClient.Client.WriteBatch` | internal/output/edge.go:67-85 | a whole write samples, appends, and flushes when 2000 events are held |
| `FlowTable.FindKey` | src/flow_tracker.c:52-57 | the first active slot with the key, or none |
| `FlowTable.FindFree` | src/flow_tracker.c:58-66 | the first inactive slot, or none |
| `FlowTable.ProbeFailsIff` | src/flow_tracker.c:50-68 | lookup fails if and only if the flow is unknown and every slot is active |
| `FlowTable.FullIffCount` | src/flow_tracker.c:58-67 | every slot is active if and only if as many are active as there are slots |
| `FlowTable.StoreRefinesMap` | src/flow_tracker.c:50-68 | storing at the found slot keeps keys distinct, is an update of the map the table stands for, and counts a new flow once |
| `FlowRuns.Aged` | src/flow_tracker.c:191-199 | ageing clears the active flag of exactly the slots the test selects and nothing else |
| `FlowRuns.TouchRefinesMap` | src/flow_tracker.c:76-173 | an update, packet or segment changes exactly its own flow in the map, or nothing when there is no room |
| `FlowRuns.TouchFindsSlot` | src/flow_tracker.c:50-68 | with a consistent table the counter alone decides whether a new flow is refused |
| `FlowRuns.EveryRunConsistent` | src/flow_tracker.c:29-205 | in every run of all operations active keys stay distinct and `active_count` counts the active slots |
| `FlowRuns.LastSeenIsPast` | src/flow_tracker.c:186-199 | with a clock that does not go back, no slot was last seen in the future, so the unsigned age never wraps |
| `FlowRuns.AgeRemovesExactlyTheOld` | src/flow_tracker.c:186-205 | in every such run cleanup removes exactly the flows seen (at a non-zero time) longer ago than the limit and leaves the rest unchanged |
| `FlowRuns.EventCarriesGain` | src/flow_tracker.c:92-130 | the event raised for an input carries the bytes that input added, and none is raised when it added none |
| `FlowRuns.EventNames` | src/flow_tracker.c:105-172 | a packet and a reading that gains raise one event, under the flow's own key, at the time of the input, with what it gained; nothing else raises any |
| `FlowRuns.TouchConservesBytes` | src/flow_tracker.c:70-173 | one operation keeps the balance between slot bytes and raised event bytes |
| `FlowRuns.EveryRunConservesBytes` | src/flow_tracker.c:70-173 | in every run the bytes in all slots equal, modulo 2^64, the bytes of all events delivered, buffered or dropped |
| `FlowTotals.RunFaithful` | src/flow_tracker.c:50-205 | in every run, whatever other flows do and whichever are aged out, a flow is in the table exactly during its stay, and its record is what the inputs of the stay make of what it found in the slot |
| `FlowTotals.TrackedFlowIsItsInputs` | src/flow_tracker.c:50-205 | the same read off the map; the inputs of the stay are the latest ones the run gave the flow |
| `FlowTotals.SlotIsAllItsInputs` | src/flow_tracker.c:50-205 | in every run each slot holds all inputs ever stored in it, of all flows that had it: nothing is cleared between them |
| `FlowTotals.ClaimFinds` | src/flow_tracker.c:58-66 | what a flow finds in the free slot it takes is everything stored there before |
| `FlowTotals.StayInWidth` | src/flow_tracker.c:92-173 | in every run what a flow finds and what it makes of it stay within their 64-bit and 32-bit fields |
| `FlowTotals.NewFlowStartsCleanIff` | src/flow_tracker.c:50-173 | in every run a tracked flow counts its own bytes if and only if the bytes it found equal, modulo 2^64, what the queue readings it found hide of its first ones; for a flow without queue readings, if and only if it found none |
| `FlowTotals.FreedSlotKeepsItsBytes` | src/flow_tracker.c:58-65 | a concrete run in which the 5 bytes of an aged-out flow turn the next flow's 7 into 12 |
| `FlowTotals.RisesTelescope` | src/flow_tracker.c:92-101 | the start value plus all accepted increases of a queue is its last reading plus all its falls |
| `FlowTotals.RisesEqualLastIff` | src/flow_tracker.c:92-101 | the increases lead to the last reading if and only if the readings never fall |
| `FlowTotals.RisesCoverEveryReading` | src/flow_tracker.c:92-101 | they reach every single reading |
| `FlowTotals.TrackedFlowBytes` | src/flow_tracker.c:76-173 | in every run a tracked flow's bytes are, modulo 2^64, what it found plus its packet sizes and the increases of both queues since, and its previous readings are the last ones |
| `FlowTotals.CountersMatchEvents` | src/flow_tracker.c:92-173 | over what was found, a record counts modulo 2^64 one packet for each event raised and the bytes of those events |
| `FlowTotals.FoldLastSeen` | src/flow_tracker.c:103-145 | after any inputs the time last seen is that of the last packet or reading; segments do not move it |
| `FlowTotals.TrackedFlowSeen` | src/flow_tracker.c:103-145 | the same for a tracked flow in every run |
| `FlowEvents.BufferHoldsFirst` | src/flow_tracker.c:70-74 | in every run the buffer holds the first events since it was emptied, as many as it has room for |
| `FlowEvents.RaisedBelongs` | src/flow_tracker.c:70-173 | in every run each event raised belongs to a step that touched its key at its time and gained its bytes |
| `FlowEvents.EventsOfFlow` | src/flow_tracker.c:76-173 | in every run, for every key, the events under that key are exactly the events of that flow's stays in the table, in order |
| `FlowEvents.FlowEventBytes` | src/flow_tracker.c:92-173 | in every run, for every key, the bytes of the events under that key are, modulo 2^64, the packet sizes and queue increases of that flow's accepted inputs: no byte is booked to another flow |
| `Retransmit.CountsTheRest` | src/flow_tracker.c:259-264 | the segments counted are exactly those reported when they came |
| `Retransmit.BehindIffBelowMaxEnd` | src/flow_tracker.c:257-268 | starting below the expected number is the same as starting below the stretch's mark or the end of some kept segment |
| `Retransmit.FoldMarks` | src/flow_tracker.c:225-269 | after any inputs to any record, SYN, FIN and wrap-around included, the expected number is that of the stretch since the mark was last set outright, and the counter has counted, modulo 2^32, all segments reported |
| `Retransmit.ReportedIffBehind` | src/flow_tracker.c:257-268 | a segment is reported if and only if it starts below the stretch's mark or before the end of a segment the stretch has kept |
| `Retransmit.TrackedFlowReports` | src/flow_tracker.c:225-269 | the same for a flow in the table, in every run, among any other flows, evictions included |
| `Retransmit.FirstSegmentReportedIff` | src/flow_tracker.c:257-264 | a flow's first data segment is reported if and only if it starts below the mark left in the slot |
| `Retransmit.MarkNeverDecreases` | src/flow_tracker.c:257-268 | within a stretch the expected number never goes back |
| `Retransmit.ContiguousIsKept` | src/flow_tracker.c:265-268 | a stream without gaps from the mark on is kept whole: no false report |
| `Retransmit.ReplayIsBehind` | src/flow_tracker.c:259-264 | every replay of a segment of the stretch, kept or reported, is reported |
| `Retransmit.ReportIsRightIff` | src/flow_tracker.c:257-268 | comparing with the expected number tells, for every octet from any lower bound on, whether it is among the data received, if and only if no gap begins at the bound or at the end of received data below the expected number, and no received data above the bound reaches past it |
| `Retransmit.TrackedReportsRightIff` | src/flow_tracker.c:225-269 | in every run, every data segment that may come next to a tracked flow is reported exactly when its first octet was received, under that same condition and only then; receipt counted over the flow's stay and over the whole run, data with SYN or FIN and across the end of the sequence space included, from any lower bound, zero among them |
| `Retransmit.GapFillIsReported` | src/flow_tracker.c:257-268 | a concrete gap-filling segment that is reported though never received before |
| `Retransmit.OverhangIsMissed` | src/flow_tracker.c:259-264 | concrete octets received in a reported segment that come again and are not reported |
| `Retransmit.WrapIsMissed` | src/flow_tracker.c:265-268 | a concrete segment across the end of the sequence space that comes again and is not reported |
| `Retransmit.SecondSynIsMissed` | src/flow_tracker.c:246-255 | concrete data that comes again after a repeated SYN and is not reported |
| `Retransmit.FinDataIsMissed` | src/flow_tracker.c:246-255 | concrete data received with a FIN that comes again and is not reported |
| `Retransmit.ClosedGapIsRight` | src/flow_tracker.c:257-268 | once the gap is filled, every next segment is reported rightly |
| `DupAck.AckRing.Check` | src/flow_tracker.c:271-280 | the ring, its index and its zeroed start report a pure ACK if and only if the same non-zero number came exactly 4096 pure ACKs earlier, of whatever flow |
| `DupAck.AckRing.constructor` | src/flow_tracker.c:243-244 | a new ring has seen nothing |
| `DupAck.FlaggedAfter4096` | src/flow_tracker.c:271-280 | from the 4097th pure ACK on, a number is reported if and only if it is not zero and the ACK 4096 before it had the same |
| `DupAck.RightIffFirst` | src/flow_tracker.c:271-280 | over fewer than 2^32 ACKs, every possible next ACK within the widths of its fields is reported as a repetition of its flow's previous one exactly when it is one, if and only if no ACK came before |
| `DupAck.RepetitionMissed` | src/flow_tracker.c:271-280 | within the first 4096 pure ACKs an immediate repetition is missed |
| `FlowTracker.FlowTracker.constructor` | src/flow_tracker.c:29-41 | a new tracker is the empty table with room for twice as many events |
| `FlowTracker.FlowTracker.FindRecord` | src/flow_tracker.c:50-68 | both scans together find or claim the slot of the specification and touch no other |
| `FlowTracker.FlowTracker.AddEvent` | src/flow_tracker.c:70-74 | an event is stored while there is room and otherwise dropped, which a ghost list records |
| `FlowTracker.FlowTracker.UpdateSingle` | src/flow_tracker.c:136-173 | a packet is one step of the table |
| `FlowTracker.FlowTracker.UpdateEntry` | src/flow_tracker.c:80-132 | one `/proc/net` entry is one step of the table |
| `FlowTracker.FlowTracker.Update` | src/flow_tracker.c:76-134 | a poll is the run of its entries in order |
| `FlowTracker.FlowTracker.CheckRetransmit` | src/flow_tracker.c:225-283 | a segment is one step of the table, the report is the one the specification gives for the record before it, and a pure ACK of a tracked flow takes one turn of the ring |
| `FlowTracker.FlowTracker.GetEvents` | src/flow_tracker.c:175-180 | the oldest buffered events, as many as fit, unchanged |
| `FlowTracker.FlowTracker.Flush` | src/flow_tracker.c:182-184 | the buffer empties and nothing else changes |
| `FlowTracker.FlowTracker.Cleanup` | src/flow_tracker.c:186-205 | the loop that clears flags and decrements the counter is the ageing step |
| `MainLoop.Polled` | src/main.c:573-582 | a poll yields at most half the flow capacity, for any four reader results |
| `MainLoop.PolledIs` | src/main.c:573-582 | for each IP version the entries are the first 1024 of its TCP table followed by its UDP table |
| `MainLoop.RoundCost` | src/main.c:464-582 | no round can raise as many events as the buffer holds |
| `MainLoop.RunKeepsAll` | src/flow_tracker.c:70-74 | a run that raises at most the free room drops nothing and keeps all events in order |
| `MainLoop.FrameHasSegmentIff` | src/main.c:475-561 | a captured frame makes a segment step exactly when the parser says TCP, with the parser's SYN, FIN and ACK |
| `MainLoop.FrameRoundTrip` | src/main.c:475-547 | IPv4 and TCP headers written into a frame come out as the flow, the size and the segment the tracker is given |
| `MainLoop.FrameWithSegment` | src/main.c:475-547 | the flow, size, time and segment the tracker is given, for every frame both readers accept, IPv6 included |
| `MainLoop.FrameWithoutSegment` | src/main.c:475-531 | every other accepted frame is its packet and no segment |
| `MainLoop.ReadFrame` | src/main.c:469-546 | the parser on a cleared event and then the extractor make of any octets the specified frame, or none |
| `MainLoop.RoundDeliversAll` | src/main.c:464-617 | each round ends with an empty buffer and hands over exactly the events it raised |
| `MainLoop.RoundAges` | src/main.c:602-610 | a round ages the table by a minute, once and after everything else, if metrics are due, and not at all otherwise |
| `MainLoop.DueRoundLeavesNoneStale` | src/main.c:602-610 | after such a round no slot is stale |
| `MainLoop.RaisedFromRound` | src/main.c:464-617 | every event of a round is that of a captured frame, with its flow, time and size, or of a polled entry, with its flow and the poll's time |
| `MainLoop.MainLoopNeverDrops` | src/main.c:464-617 | over any number of rounds of any captured octets no event is dropped, all raised ones are handed to the serializer in order, and their bytes equal, modulo 2^64, the bytes in the table |
| `MainLoop.DeliveredPerFlow` | src/main.c:464-617 | over any number of rounds, what is handed over under each key is that flow's own events in order, and their bytes are, modulo 2^64, its own packet sizes and queue increases |
| `MainLoop.TrackFrame` | src/main.c:528-561 | a frame is its packet step and, for TCP, its segment step |
| `MainLoop.CaptureFrames` | src/main.c:464-570 | the capture loop over raw octets tracks the first 1000 frames that parse and passes over the others |
| `MainLoop.RunRound` | src/main.c:464-617 | a whole round on the real tracker returns as its batch exactly the events the round raised, each from a captured frame or a polled entry |
| `TcpProtocol.BackoffDoubles` | src/tcp_client.c:27-43 | up to the retry limit the 32-bit shift with its overflow test is doubling capped at the maximum delay |
| `TcpProtocol.SendLoop` | src/tcp_client.c:430-465 | a send that does not complete took less than the request |
| `TcpProtocol.ConnectLeaksIff` | src/tcp_client.c:239-267 | connecting leaks no socket if and only if the client is connected or holds none; otherwise exactly one more leaks |
| `TcpProtocol.LeakIsReachable` | src/tcp_client.c:239-267 | a concrete run (connect, peer gone, connect again) that holds one socket and leaks another |
| `TcpProtocol.AttemptSucceedsIff` | src/tcp_client.c:56-179 | an attempt connects if and only if every system call on its way succeeds; it closes the socket it opened exactly when it fails later |
| `TcpProtocol.ReconnectDoes` | src/tcp_client.c:304-379 | in each case (off, too early, out of retries, established, failed) the counters, the retries and the remembered time |
| `TcpProtocol.DisconnectAndPollDo` | src/tcp_client.c:274-565 | disconnecting closes the socket held; a poll gives up a connection whose peer is gone and changes nothing else |
| `TcpProtocol.ReconnectKeepsInv` | src/tcp_client.c:304-379 | reconnecting keeps the invariant and leaks nothing, whatever the clock and every socket call do |
| `TcpProtocol.SendKeepsInv` | src/tcp_client.c:393-482 | so does sending, with its reconnect before and after the loop |
| `TcpProtocol.EveryRunOwnsItsSocket` | src/tcp_client.c:239-586 | after any run of connects, disconnects, sends, reconnects and polls: connected means a socket is held, the open sockets are the one held and one for each connect that overwrote one, the delay is the doubled one for the retry count, and cleanup leaves exactly the overwritten ones open |
| `TcpProtocol.OneConnectLeaksNothing` | src/tcp_client.c:239-586 | a run shaped like the probe's, with its one connect at the start, overwrites no socket |
| `TcpProtocol.ExhaustedForGood` | src/tcp_client.c:332-339 | a client out of retries makes no further attempt in any run without a direct connect |
| `TcpProtocol.TenFailuresAreFinal` | src/tcp_client.c:332-339 | after any run that ends with ten failures in a row it never connects again on its own |
| `TcpProtocol.SendTimed` | src/tcp_client.c:316-330 | a send keeps failed attempts spaced by their delays |
| `TcpProtocol.SpanOf` | src/tcp_client.c:363-370 | spaced failures span at least the sum of their delays |
| `TcpProtocol.FailuresAreSpread` | src/tcp_client.c:316-370 | in every run with a positive clock that does not go back, the k-th failure of a streak comes at least the sum of the delays after the first |
| `TcpProtocol.HeldBackIff` | src/tcp_client.c:321-370 | after a failed attempt the next one is held back until the doubled, capped delay is over, if and only if the attempt was not at clock value 0 |
| `TcpProtocol.ClockZeroIsNotRemembered` | src/tcp_client.c:321-327 | at clock value 0 two attempts in a row both go through |
| `TcpProtocol.CountersExactIff` | src/tcp_client.c:430-467 | of a request put to the socket, sent and lost account for all but the missing octets, a function of the socket's replies; none are missing if and only if the octets taken before the first ending reply reach the request, or the connection is lost after nothing but interrupts, writable waits and empty sends (which counter moves: `CountersByReplies`) |
| `TcpProtocol.CountersByReplies` | src/tcp_client.c:430-467 | sent grows by the whole request when the replies take it whole and by nothing otherwise; lost grows by the octets not yet taken when a reply breaks the connection and by nothing otherwise |
| `TcpProtocol.RunCounters` | src/tcp_client.c:393-482 | in every run sent, lost and missing octets add up to the octets requested |
| `TcpProtocol.RunCountersExactIff` | src/tcp_client.c:393-482 | in every run sent and lost alone do, if and only if every request put to the socket was taken whole or lost whole |
| `TcpProtocol.RunCountersByReplies` | src/tcp_client.c:393-482 | in every run each of the two counters, on its own, is the sum of what the replies to its requests say |
| `TcpProtocol.SendDoes` | src/tcp_client.c:393-482 | result and new state of a connected client's send, read off the length and the replies: refused, taken whole, cut short or broken |
| `TcpProtocol.SendReconnectsFirst` | src/tcp_client.c:400-408 | a disconnected client reconnects once before sending, if that is on, and sends only if it worked |
| `TcpProtocol.PartialSendIsNotCounted` | src/tcp_client.c:449-461 | a concrete send of ten octets that takes four, returns four and moves neither counter |
| `TcpClient.TcpClient.constructor` | src/tcp_client.c:192-230 | a new client is the initial state |
| `TcpClient.TcpClient.TryToConnect` | src/tcp_client.c:56-179 | every branch of the attempt (no socket, bad address, refused, timed out, failed later, established) ends in the specified state, with the socket closed on each failing one |
| `TcpClient.TcpClient.ConnectTo` | src/tcp_client.c:239-267 | connecting is the specified step |
| `TcpClient.TcpClient.Close` | src/tcp_client.c:274-295 | disconnecting closes the held socket and only that |
| `TcpClient.TcpClient.Flush` | src/tcp_client.c:512-537 | there is never anything to flush |
| `TcpClient.TcpClient.TryReconnect` | src/tcp_client.c:304-379 | reconnecting is the specified step, and reports success exactly when this attempt connected |
| `TcpClient.TcpClient.Transmit` | src/tcp_client.c:430-465 | the send loop over any replies (partial, interrupted, blocked, broken) computes the specified end |
| `TcpClient.TcpClient.Transfer` | src/tcp_client.c:393-482 | a whole send is the specified step and returns the specified result |
| `TcpClient.TcpClient.CheckConnected` | src/tcp_client.c:546-565 | polling the peer is the specified step |
| `PacketParser.FourFlags` | src/main.c:244-250 | copying four flags one by one is masking with 0x17 |
| `PacketParser.SixFlags` | src/packet_parser.c:77-84 | copying six flags one by one is masking with 0x3F |
| `PacketParser.ReadIPv4` | src/packet_parser.c:53-105 | the in-place IPv4 reader fills the event the specification gives, or refuses |
| `PacketParser.ReadIPv6` | src/packet_parser.c:107-154 | the same for IPv6, an address reported as the exclusive or of its four words |
| `PacketParser.FoldAtBits` | src/packet_parser.c:114-118 | each octet of the address reported is, bit for bit, the exclusive or of that octet in all four words of the IPv6 address |
| `PacketParser.ParseRaw` | src/packet_parser.c:37-158 | the same for a frame with or without a VLAN tag |
| `PacketParser.ExtractTcpSeqNum` | src/main.c:205-253 | the extractor matches its specification, with the payload length cut to 16 bits |
| `CollectorDecode.ReadPacket` | internal/collector/protocol.go:106-155 | the collector's decoding matches its specification on every payload |
| `PacketAgreement.SameTcpOffset` | src/main.c:212-233 | on every frame the parser accepts, the extractor finds the transport header where the parser found it, tagged or not, IPv4 or IPv6 |
| `PacketAgreement.ExtractorAgrees` | src/main.c:205-253 | on every accepted TCP frame the extractor succeeds and its flags are the parser's |
| `PacketAgreement.CollectorAgrees` | internal/collector/protocol.go:106-155 | on untagged IPv4 frames of TCP or UDP the C parser and the Go decoder report the same flow and flags, and accept the same frames except for loopback, later fragments and cut transport headers |
| `PacketAgreement.HeadersRoundTrip` | src/packet_parser.c:53-105 | IPv4 and TCP headers written into a frame, options of any length between them, are read back by both the parser and the extractor |
| `PacketAgreement.FoldsToIff` | src/packet_parser.c:114-118 | an address is reported for an IPv6 address if and only if it is the exclusive or of its words |
| `PacketAgreement.OneOctetShows` | src/packet_parser.c:114-118 | two IPv6 addresses that differ in any one of their sixteen octets are reported as different ones |
| `PacketAgreement.Headers6RoundTrip` | src/packet_parser.c:107-136 | the same for IPv6 and TCP, each address coming back as the exclusive or of its words |
| `PacketAgreement.UdpRoundTrip` | src/packet_parser.c:86-91 | a UDP datagram over IPv4 is read back |
| `PacketAgreement.Udp6RoundTrip` | src/packet_parser.c:138-143 | and over IPv6, each address coming back as the exclusive or of its words |
| `PacketAgreement.IcmpIsParsed` | src/packet_parser.c:93-98 | ICMP over IPv4 comes back under its type, and needs eight octets |
| `PacketAgreement.OtherIsParsed` | src/packet_parser.c:100-103 | any other protocol over IPv4 comes back without ports, whatever follows |
| `PacketAgreement.Other6IsParsed` | src/packet_parser.c:145-152 | and over IPv6 |
| `PacketAgreement.AcceptedIff` | src/packet_parser.c:37-158 | exactly which frames the parser accepts, octet by octet |
| `PacketAgreement.ExtractsIff` | src/main.c:205-233 | exactly when the extractor finds a TCP header |
| `PacketAgreement.SampleIff` | internal/collector/protocol.go:106-159 | exactly which packets the collector counts, and as what when the ports are cut off or missing |
| `PacketAgreement.DnsPartIff` | internal/collector/protocol.go:137-151 | of an encoded datagram, IP options of any length included, the DNS parser is handed exactly the body, if there is one and a port is 53; the HTTP parser nothing |
| `PacketAgreement.HttpPartIff` | internal/collector/protocol.go:118-136 | of an encoded segment, IP and TCP options of any length included, the HTTP parser is handed exactly the data, if there is any and it goes to port 80, 443, 3000 or 8000 to 9999; the DNS parser nothing |
| `CollectorPath.DatagramSample` | internal/collector/protocol.go:106-159 | an encoded datagram is counted under its own addresses and ports, with its whole length |
| `CollectorPath.DnsDatagramProcessed` | internal/collector/protocol.go:106-174 | a DNS datagram records what the parser makes of its body and is then counted, once |
| `CollectorPath.QuestionReachesDecoder` | internal/collector/protocol.go:137-228 | a question in a datagram from or to port 53 comes out as its name and, for the type, the octets one position late |
| `CollectorProtocol.CountSummarises` | internal/collector/protocol.go:155-174 | counting a sample keeps each flow's record the summary of its samples |
| `CollectorProtocol.SwapKeepsInv` | internal/collector/protocol.go:242-247 | swapping the tables keeps all samples accounted for |
| `CollectorProtocol.EmitKeepsInv` | internal/collector/protocol.go:249-256 | so does emitting one flow of the snapshot while packets keep arriving |
| `CollectorProtocol.EveryRunConserves` | internal/collector/protocol.go:155-256 | in every interleaving of packets with flushes, bytes and packets of each flow in table, snapshot and emitted events add up, modulo 2^64, to what was counted; flags are exactly those seen since the swap |
| `CollectorProtocol.AppendIsRecent` | internal/collector/protocol.go:131-134 | appending and trimming keeps the list the newest of its items, of a length fixed by how many there were |
| `CollectorProtocol.ListsHoldTheLatest` | internal/collector/protocol.go:131-149 | in every run both lists hold the newest items since the swap, at most 1000, and all of them while 1000 or fewer |
| `Collector.Counter.Add` | internal/collector/protocol.go:160-165 | updating a flow record through its pointer is the merge of the specification |
| `Collector.Tally` | internal/collector/protocol.go:156-173 | updating one record in place or inserting a new one changes that flow's entry only |
| `Collector.Collector.constructor` | internal/collector/protocol.go:65-72 | a new collector is the initial state |
| `Collector.Collector.RecordHttp` | internal/collector/protocol.go:131-134 | recording a request is the protocol's step |
| `Collector.Collector.RecordDns` | internal/collector/protocol.go:146-149 | recording a query is the protocol's step |
| `Collector.Collector.ProcessIPv4` | internal/collector/protocol.go:106-174 | a packet hands the octets its protocol, ports and header lengths select to the HTTP or DNS parser, records what that finds, and is then counted; nothing happens when it is refused |
| `Collector.Collector.SwapTables` | internal/collector/protocol.go:242-247 | the swap hands the old table over whole; later packets cannot reach its records |
| `Collector.Collector.EmitAll` | internal/collector/protocol.go:249-256 | iterating the snapshot in any order emits each flow exactly once, with its totals |
| `MySql.LittleRoundTrip` | pkg/protocol/db.go:171-198 | little-endian integers of any width read back |
| `MySql.EncodeLenInt` | pkg/protocol/db.go:171-198 | the first octet announces the length and is never the NULL mark |
| `MySql.LenIntRoundTrip` | pkg/protocol/db.go:171-198 | every 64-bit value reads back as a signed integer, as itself if and only if below 2^63 |
| `MySql.LargeLenIntIsNegative` | pkg/protocol/db.go:188-194 | 2^63 comes out as -2^63 |
| `MySql.LenIntRejectsPrefix` | pkg/protocol/db.go:171-198 | every proper prefix of an encoding is refused and consumes nothing |
| `MySql.LenIntCases` | pkg/protocol/db.go:171-198 | how the first octet decides width, value and end, for every octet string, minimal or not |
| `MySql.FrameRoundTrip` | pkg/protocol/db.go:98-108 | a framed body reads back whatever follows it, and every cut frame is refused |
| `MySql.BodyIff` | pkg/protocol/db.go:98-108 | a body is found if and only if it is the announced, non-zero number of octets after the header |
| `MySql.OkRoundTrip` | pkg/protocol/db.go:135-144 | an OK packet yields its affected rows, unchanged if and only if below 2^63 |
| `MySql.ErrorRoundTrip` | pkg/protocol/db.go:145-151 | an error packet yields its code and message |
| `MySql.QueryRoundTrip` | pkg/protocol/db.go:110-119 | a query is reported verbatim if and only if it has at most 200 octets, or 203 and already ends in dots |
| `MySql.RequestMeans` | pkg/protocol/db.go:110-134 | what every command octet with any text, empty or long, is reported as |
| `MySql.ShortResponses` | pkg/protocol/db.go:135-151 | OK and error packets cut short yield what is left of them |
| `MySql.OtherResponse` | pkg/protocol/db.go:135-158 | any other response yields neither rows nor a code |
| `Redis.SplitGlue` | pkg/protocol/db.go:238-238 | gluing the parts with CR LF gives back the payload |
| `Redis.PartsHaveNoCrlf` | pkg/protocol/db.go:238-238 | no part holds a separator |
| `Redis.GlueSplit` | pkg/protocol/db.go:238-238 | splitting inverts gluing for parts without separators |
| `Redis.ParseArray` | pkg/protocol/db.go:237-250 | the loop over every second part computes the specified command and query |
| `Redis.ArrayRoundTrip` | pkg/protocol/db.go:237-250 | an encoded array yields its first argument as command and its non-empty arguments as query, for any arguments without separators |
| `Redis.CleanArrayRoundTrip` | pkg/protocol/db.go:237-250 | non-empty arguments without surrounding space are all reported, in order |
| `PortScan.FirstDistinctMeans` | src/anomaly.c:73-78 | the stored values of a history stand in order of first arrival: before each one only earlier ones arrived; and they are all of them until the limit |
| `PortScan.FirstDistinctIsOnly` | src/anomaly.c:73-78 | no other list meets that description |
| `PortScan.StepMeets` | src/anomaly.c:96-114 | one flow keeps the table equal to what its history prescribes |
| `PortScan.EveryRunMeets` | src/anomaly.c:59-114 | after any flows the table holds the first 1024 sources and, for each, its first 256 distinct non-zero ports |
| `PortScan.ScanIff` | src/anomaly.c:101-114 | a flow is reported if and only if its source is tracked, its port is new to the table and non-zero, and with it the count reaches 20 |
| `PortScan.ScanOnTwentiethPort` | src/anomaly.c:108-113 | below the port limit, a new port is reported if and only if it brings the history to at least twenty distinct ones |
| `PortScan.Detector.constructor` | src/anomaly.c:46-52 | a new detector has seen nothing |
| `PortScan.Detector.FindSource` | src/anomaly.c:59-70 | lookup finds or appends the source, or fails when 1024 are tracked |
| `PortScan.Detector.PortSeen` | src/anomaly.c:73-78 | the scan says whether the port is among those stored |
| `PortScan.Detector.CheckFlow` | src/anomaly.c:96-114 | one flow on the arrays is one step of the table, with the specified report and count |
| `Sched.SwitchKeepsInv` | pkg/perf/sched.go:43-56 | a context switch keeps the total equal to the time counted |
| `Sched.RunTimeConserved` | pkg/perf/sched.go:43-56 | when each switch takes out the process last put in, run times add up to the counted intervals and never exceed the elapsed time |
| `Sched.CountersAre` | pkg/perf/sched.go:43-65 | in every run the switch, wake-up and latency counters of a process are, modulo 2^64, its exits, wake-ups and waiting; it has a record exactly when it had one of these |
| `Sched.ElapsedIs` | pkg/perf/sched.go:46-46 | a duration saturates at both ends of 64 bits and reads unsigned when negative |
| `Sched.RunTimeIsBusyTimeIff` | pkg/perf/sched.go:43-56 | on any number of processors, with switches in time order, a process's run time is its counted intervals; it is the number of instants covered by them if and only if the last entry before every counted exit is no earlier than the exit before, and more otherwise |
| `Sched.LifeAccounts` | pkg/perf/sched.go:43-56 | at every point of such a run the credit is at least the busy time, and equal exactly while no exit was stale |
| `Sched.StaleStartCountsTwice` | pkg/perf/sched.go:43-56 | a concrete run outside that condition counts 30 units in 20 |
| `Sched.Analyzer.RecordSwitch` | pkg/perf/sched.go:43-56 | the method is the specified step |
| `Sched.Analyzer.RecordWakeUp` | pkg/perf/sched.go:58-65 | so is a wake-up |
| `Sched.Analyzer.GetTop` | pkg/perf/sched.go:67-79 | a descending list of at most n entries that, with the rest, is exactly the table, and none of the rest exceeds any entry; a negative n panics |

## Left out

- The BPF programs, the loader, the perf-buffer reader (never active: its descriptor is always -1), the JSON serializer, host metrics, the ClickHouse writer, the API, the kernel, file and process monitors, configuration and deployment.
- Name heuristics: domain-generation and tunnel detection, dangerous SQL and Redis commands, the names of commands and record types (types stay numbers).
- The text of resource data, the DNS query-response matcher, the reply branch of the C DNS decoder and its formatted details.
- HTTP parsing; the payload offsets `main.c` computes for it and for DNS.
- The traffic-spike and reset parts of `anomaly.c`.
- The per-flow duplicate-ACK counter, overflow of the ACK ring's index, `first_seen_ns`, and the strings (protocol, tags, service, probe name) of flow events.
- Structure padding: the C table compares keys as memory, the model field by field. The collector's text key is modelled as the five values it is formatted from.
- Source and destination swapping by direction, and timestamps of decoded records.
- The formatting of the HTTP request the TCP client sends (its length is an input) and the draining of the response; a send loop that is interrupted for ever.
- Main-loop delivery ends when the batch is handed to the serializer; what becomes of a batch that does not serialize or send is not modelled.
- TcpProtocol.RunCounters: the two 64-bit counters do not wrap, because a request is below 65536 octets and no run reaches 2^48 requests.
- Collector.Collector.EmitAll: flow events only; the HTTP and DNS lists taken by the swap are returned, their emission as events is not modelled.
- TcpProtocol.FailuresAreSpread: needs a positive clock that does not go back, because the value 0 stands for "never" (`ClockZeroIsNotRemembered`).
- Retransmit.TrackedReportsRightIff: data that comes with SYN is taken to begin at the segment's sequence number, because the tracker does not tell SYN from FIN.
- FlowRuns.AgeRemovesExactlyTheOld: needs a clock that does not go back, which `CLOCK_MONOTONIC` promises.
- PacketAgreement.CollectorAgrees: untagged IPv4 frames with TCP or UDP, the only ones the Go capture loop and the C parser decode alike.
- PacketParser.ReadIPv6: the C code folds 32-bit words; the model folds them octet by octet, which is the same in either byte order.
- Redis replies of other kinds (simple strings, errors, integers, bulk strings) and the inline form.
- Redis.ParseArray: the trimming and upper-casing of Unicode text are parameters.
- Sched.RunTimeConserved: spans of at most 2^63 - 1 nanoseconds, because a longer Go duration saturates (as the model's does).
- Sched.Analyzer.GetTop: the list holds copies of the records, not pointers to them; Go's unstable sort is modelled by insertion, so equal run times come in one of the possible orders. The average wake-up latency and the reset are left out.
