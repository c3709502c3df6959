# Verification of packet capture with TLS plaintext

`get-packets` receives two independent streams: captured wire packets, and TLS plaintext events reported by the agent.
A buffer holds both for a window, attaches at most one plaintext record to a packet, and produces two outputs that must
agree: a capture file whose packets carry record ids, and a log of plaintext records that say whether a packet carries
them. This project models that buffer and the code around it, and proves what it keeps over whole runs.

- `Records`, `Timing`, `Filters`, `Scoring`: records as maps of tagged values, tuples and ports, 64-bit time arithmetic,
  filter hints and the scoring ladder.
- `Exports`: the record transformations, as loops over maps in arbitrary order and as functions.
- `Matching`: the one-pass scan over buffered packets and one attempt to annotate.
- `Protocol`, `Sequences`: the buffer as a state machine whose steps are a packet, a record, a tick and the final flush,
  for any way of choosing packets. `Conservation`, `Runs`, `Bounds`: what all its runs keep.
- `Correlation`: the machine with the tool's own scoring. `Competition`, `Departures`, `Attachments`: what competing
  connections decide in its runs, why records leave unmatched, and when they are attached. `WireBuffer`: the buffer as a
  class over two arrays that are compacted in place, each method proved equal to its step. `Capture`, `CaptureOutputs`:
  the collector's routing and the two files it leaves.
- `FlowDisplay`: the live table, cut on every append and merged on display.
- `JsonScan`, `ExportSearch`: the byte scanner for embedded JSON objects, the search for export records and the peeling of
  payload layers.
- `Keylog`: the incremental copy of a TLS key log.

How the model relates to the program:

- Addresses are text read by an abstract parser that returns canonical text, and canonical text reads as itself. Base64
  and frame decoding, lower-casing and payload extraction are abstract functions; no result depends on what they compute.
  Abstract functions are constants of function type without a value.
- The display text is computed anew each time a record is exported, from a search over a map in arbitrary order
  (`cmd/plaintext_format.go:390-405`), so one record may come with different texts. It is an arbitrary input each time.
  Lines from the buffer are therefore given apart from it: `Correlation.Line`, and `Bare` for the record without it.
- The clock is an input. An operation that takes the time once gets it as an argument. The readings made inside an
  attempt to annotate are a function of pass and position about which nothing is assumed; only `Departures` asks that
  readings made within a step are no earlier than the time the step began with.
- A packet or record in the buffer is a value in an array slot. The program keeps references, each in one slot only, so
  updating the slot and updating the referenced object are the same.
- Both outputs are sequences that writing appends to. The order of lines written at once relative to lines from the
  buffer is not represented; lines are counted over both.
- The sort of the live table is any ascending permutation; rows carry distinct indices, so there is only one.
- `Timing` keeps saturation and wrap-around of 64-bit durations. The comment on the time bonus promises the range 0..10;
  for capture times 2^63 ns (about 292 years) or more apart, the packet's being the later one, the code returns a large
  negative number. `BonusCanLeaveRange` gives two such records and `BonusRange` the exact condition. `ScoreMeaning`
  shows that this never reaches an annotation.
- The threshold check before annotating never decides anything: `CandidatesClearThreshold` and `AttemptMeaning`.

## Model

| member | source | states |
|---|---|---|
| `CaptureOutputs.FilesAgree` | cmd/packet_capture_wire_buffer.go:227-263 | After a capture ends, for every id, the packets in the capture file that carry it are as many as the log lines that show it and say `PcapAnnotated` |
| `CaptureOutputs.OneLinePerRecord` | cmd/packet_capture.go:181-194 | Every id given to a plaintext record is on as many log lines as it was given out: verified or not, annotated or not, no record is dropped or doubled |
| `CaptureOutputs.EachIDOnce` | cmd/packet_capture_plaintext.go:12-22 | Up to 2^64 records, each id is on exactly one line, and on one packet exactly when that line is annotated |
| `CaptureOutputs.PacketAndLineShowOneTuple` | cmd/packet_capture_wire_buffer.go:239-263 | A written packet with an id has a log line with that id whose tuple is the packet's own and the one the agent took from the socket, in network direction; and the packet fits the record in time, workload, endpoints and payload |
| `CaptureOutputs.PacketFileInOrder` | cmd/packet_capture.go:196-210 | With receive times that never go back, the capture file holds every accepted frame once, in order of arrival |
| `CaptureOutputs.ExportsFromCollector` | cmd/packet_capture.go:181-188 | Only verified records reach the buffer, and each leaves it with the id it was given |
| `CaptureOutputs.RecordsAreRouted` | cmd/packet_capture.go:181-194 | A plaintext record with its tuple from the socket causes exactly one step, which hands it to the buffer as tagged, and no line; any other writes its line at once and does not reach the buffer |
| `CaptureOutputs.TaggedKeeps` | cmd/packet_capture.go:181-184 | A record is tagged with its id and display text and otherwise stays as received |
| `CaptureOutputs.SocketRecordsLeaveByBuffer` | cmd/packet_capture.go:181-188 | After the end of a capture every record from the socket has been exported by the buffer as it was tagged, and its line is in the log |
| `CaptureOutputs.AcceptedArrive` | cmd/packet_capture.go:196-210 | The packets that arrive at the buffer are the records that are no plaintext and have data that decodes, in order |
| `CaptureOutputs.LineShowsID` | cmd/packet_capture_wire_buffer.go:255-287 | The line of a record that went through the buffer shows its id, and `PcapAnnotated` exactly as it left |
| `CaptureOutputs.DirectLinesUnannotated` | cmd/packet_capture.go:189-193 | A line written at once never claims a packet |
| `CaptureOutputs.CollectorFilesAgree` | cmd/packet_capture.go:115-123 | The same counts for the files the collector object itself has written when it is stopped, display texts included |
| `Runs.OutputsAgree` | cmd/packet_capture_wire_buffer.go:227-263 | For any way of choosing packets: after the final flush, packets carrying an id, with any given property on arrival, are matched one to one by records annotated with it on such packets |
| `Runs.RunBalances` | cmd/packet_capture_wire_buffer.go:289-329 | At every moment of a run, ids on written and buffered packets balance the annotated records, and a packet is marked annotated exactly when it carries an id |
| `Runs.EveryRecordReported` | cmd/packet_capture_wire_buffer.go:289-301 | After the final flush every record has been finalized exactly as often as it was handed in |
| `Runs.RunAccounts` | cmd/packet_capture_wire_buffer.go:142-161 | At every moment a record handed in is either pending or finalized, once |
| `Runs.RunKeepsOrder` | cmd/packet_capture_wire_buffer.go:117-139 | Written packets followed by buffered packets are all accepted packets in order, through expiry, eviction and compaction |
| `Runs.PacketFileIsComplete` | cmd/packet_capture_wire_buffer.go:289-301 | After the final flush the written packets are all accepted packets in order |
| `Runs.RunLosesNothing` | cmd/packet_capture_wire_buffer.go:303-329 | Whatever the clock does, a packet is written or buffered as often as it arrived |
| `Runs.RunExtends` | cmd/packet_capture_wire_buffer.go:331-338 | Both outputs only grow: a packet is never annotated, and a record never changed, after it was written |
| `Runs.AmbiguityIsRemembered` | cmd/packet_capture_wire_buffer.go:163-201 | A record marked ambiguous is not annotated in the rest of the run |
| `Runs.RunJustified` | cmd/packet_capture_wire_buffer.go:227-263 | What attempts guarantee of a record and its packet holds of all annotated records of a run |
| `Runs.ExportArrived` | cmd/packet_capture_wire_buffer.go:142-161 | Whatever record leaves the buffer was handed in exactly so in some step |
| `Runs.ExportOfHandIn` | cmd/packet_capture_wire_buffer.go:142-161 | The export of an id handed in once is that of the record handed in with it |
| `Runs.AnnotatedPacketArrived` | cmd/packet_capture_wire_buffer.go:239-263 | The packet a record was annotated on, time and data included, arrived exactly so in some step |
| `Competition.CompetitionIsFinal` | cmd/packet_capture_wire_buffer.go:163-201 | In every run that hands in an id once: if its partial-tuple record meets competing connections in any step, in the pass of an expiry, after a packet, on arrival or in the final flush, no record of that id is ever annotated, in that step or any other, even once a competitor has gone |
| `Competition.CompetesMeaning` | cmd/packet_capture_wire_buffer.go:168-201 | A record without a full tuple sees competition iff two packets, taken or not, are candidates for it and their tuples are neither equal nor reversed |
| `Departures.UnmatchedForCause` | cmd/packet_capture_wire_buffer.go:227-329 | In every run a record handed in once is exported unmatched iff in some step it has reached the window, or the capture ends, and the buffer holds no packet, or, when the pass reaches the record, it is marked ambiguous, or is partial and sees competition, or no packet is the clear choice |
| `Departures.ExpiryDecides` | cmd/packet_capture_wire_buffer.go:303-329 | One expiry exports a pending record unmatched iff it has reached the window and there is such a cause; being made to wait is none |
| `Departures.FinalFlushDecides` | cmd/packet_capture_wire_buffer.go:289-301 | After any run, the final flush leaves a pending record unmatched iff there is such a cause |
| `Attachments.AttachedForCause` | cmd/packet_capture_wire_buffer.go:227-263 | In every run a record is attached to a packet iff in some step, before expiry, after a packet, on the record's arrival or in the final flush, that packet is the clear choice, the record is not marked and sees no competition, and waiting is over or not asked for |
| `Attachments.ArrivalIsAttached` | cmd/packet_capture_wire_buffer.go:142-161 | A full-tuple record that finds its clear choice in the buffer on arrival is attached to it in that step, and the packet takes its id |
| `Correlation.FullTupleOwnConnection` | cmd/packet_capture_wire_buffer.go:643-663 | In every run a full-tuple record is only annotated on a packet of its own connection in its own network direction, for every direction value and every port |
| `Correlation.VerifiedLineShowsNetworkTuple` | cmd/packet_capture_wire_buffer.go:388-399 | In every run the line of a verified record shows its tuple in network direction, whether annotated or expired unmatched |
| `Correlation.UnmatchedLineIgnoresTraffic` | cmd/packet_capture_wire_buffer.go:271-287 | Two runs that hand in the same record, display text aside, each under an id of its own, and leave it unmatched export the same line apart from the display text: the one made from the record as handed in, whatever the traffic and filters |
| `Correlation.AnnotatedLine` | cmd/packet_capture_wire_buffer.go:255-269 | The line of an annotated record is made from the record as handed in, completed by the hints, and its packet |
| `Correlation.AnnotatedIsCandidate` | cmd/packet_capture_wire_buffer.go:618-666 | In every run a record is only annotated on a packet within -2 s and +5 s (or 30 s by receive time), of a fitting workload, agreeing on every endpoint both know, in its direction and tier, and not a bare ACK |
| `Correlation.PendingIsEnriched` | cmd/packet_capture_wire_buffer.go:220-225 | At every moment of a run pending data is the enriched original |
| `Correlation.FullTupleAlwaysReady` | cmd/packet_capture_wire_buffer.go:197-201 | In every run a pending full-tuple record is unmarked, so its next attempt succeeds exactly on the clear choice |
| `Correlation.AttemptIsAllowed` | cmd/packet_capture_wire_buffer.go:239-263 | The tool's own choice is one the protocol results apply to: a packet not taken, the record's identity kept, no annotation in spite of ambiguity |
| `Bounds.RunBounded` | cmd/packet_capture_wire_buffer.go:132-136 | At most 20000 packets are buffered between two steps |
| `Bounds.StepLeavesYoung` | cmd/packet_capture_wire_buffer.go:303-329 | A step at a given time leaves no packet and no record in the buffer that has reached the window |
| `Bounds.ResidenceBounded` | cmd/packet_capture_wire_buffer.go:102-115 | With a step every quarter window nothing stays for the window and a quarter |
| `Bounds.ExpirySplits` | cmd/packet_capture_wire_buffer.go:303-315 | An expiry keeps exactly the packets younger than the window and writes exactly the others, in order |
| `Bounds.WrittenForCause` | cmd/packet_capture_wire_buffer.go:117-139 | In every run a packet is written only after it reached the window, or as the oldest of 20000 when another comes, or in the final flush |
| `Matching.BestWireMatch` | cmd/packet_capture_wire_buffer.go:163-201 | The scan loop computes best index, best score, the two ambiguity flags exactly as the specified scan |
| `Matching.ScanFindsBest` | cmd/packet_capture_wire_buffer.go:182-194 | The scan returns the first packet of maximal score among those not taken, and the maximum over the others |
| `Matching.AmbiguousMeaning` | cmd/packet_capture_wire_buffer.go:195-196 | Ambiguity by score means: another packet not taken scores within 5 of the best |
| `Matching.ScanSeesCompetition` | cmd/packet_capture_wire_buffer.go:168-181 | Comparing neighbours alone, the scan reports several connections iff two scoring packets, annotated ones included, are of different connections |
| `Matching.SameConnectionIsEquivalence` | cmd/packet_capture_wire_buffer.go:511-517 | Equal-or-reversed tuples form an equivalence |
| `Matching.AttemptMeaning` | cmd/packet_capture_wire_buffer.go:239-263 | An attempt annotates packet i iff i is clear of every other candidate by more than 5, no competition was or is seen by a partial record, and waiting is over; the threshold never decides |
| `Matching.AttemptKeeps` | cmd/packet_capture_wire_buffer.go:197-225 | An attempt enriches the record, keeps its identity, and marks it ambiguous iff it is partial and sees competition, or was marked |
| `Matching.FullTupleNeverWaits` | cmd/packet_capture_wire_buffer.go:249-254 | A full-tuple record that is not marked is annotated at once on packet i iff i is the clear choice, and an attempt never marks it |
| `Matching.ClearChoiceMeaning` | cmd/packet_capture_wire_buffer.go:163-201 | A packet is the clear choice iff it is a candidate not taken and at least six points of time and payload ahead of every other such candidate |
| `Matching.PartialWaits` | cmd/packet_capture_wire_buffer.go:249-254 | Ahead of the final flush a partial record is annotated only after it or the packet has waited for the window |
| `Scoring.ScoreMeaning` | cmd/packet_capture_wire_buffer.go:618-666 | A packet scores iff it passes a score-free list of conditions, and then scores the record's own base plus a time bonus in 0..10 plus a payload bonus |
| `Scoring.ScoreInPoints` | cmd/packet_capture_wire_buffer.go:23-38 | The score of a candidate in numbers: 100, 75, 50 or up to 52 by what the record knows, 5 for a direction, the time bonus, and 20 or 25 for payload |
| `Scoring.CandidateByEnds` | cmd/packet_capture_wire_buffer.go:618-696 | Which packets of a known connection are candidates: in time, of a fitting workload, with payload, agreeing with every address and port the record knows on the side its direction gives, and passing the filters if the record knows no end |
| `Scoring.FullTupleCandidate` | cmd/packet_capture_wire_buffer.go:643-650 | For a record with a full tuple: exactly those whose tuple is the record's in network direction, in time, of a fitting workload and with payload |
| `Scoring.WorkloadDecides` | cmd/packet_capture_wire_buffer.go:726-751 | Which hook may report the traffic of a workload, by what its name and owner contain |
| `Scoring.ContainsMeaning` | cmd/packet_capture_wire_buffer.go:741-749 | A name contains a word iff the word stands in it letter by letter |
| `Scoring.UnnamedFits` | cmd/packet_capture_wire_buffer.go:726-738 | Without a named hook or a named workload every packet fits |
| `Scoring.PodIdentityMeaning` | cmd/packet_capture_wire_buffer.go:753-774 | The workload is that of the destination pod, else of the source pod |
| `Scoring.PodEndpointMeaning` | cmd/packet_capture_wire_buffer.go:532-544 | A record is known by its own end if that has a usable address and port, else by the other |
| `Scoring.CompatibleBase` | cmd/packet_capture_wire_buffer.go:643-665 | Compatible endpoints put every packet in the one tier fixed by the record and the filters |
| `Scoring.CandidatesClearThreshold` | cmd/packet_capture_wire_buffer.go:203-218 | Every candidate meets the annotation threshold of its record |
| `Scoring.CandidatesShareTier` | cmd/packet_capture_wire_buffer.go:34-39 | Candidates of one record differ by time and payload bonuses only |
| `Scoring.MarginMeaning` | cmd/packet_capture_wire_buffer.go:698-714 | Among candidates equally near in time, a packet with TCP payload beats one without a readable TCP layer beyond the ambiguity margin, and nothing else about payloads does: the bonus for size equals the margin |
| `Scoring.StrictMeansOwnTuple` | cmd/packet_capture_wire_buffer.go:790-813 | With compatible endpoints and direction, a strict match is a match of the tuple in network direction, and earns the direction bonus exactly for reads and writes |
| `Scoring.FullTupleScoresOwnConnection` | cmd/packet_capture_wire_buffer.go:646-650 | A full-tuple record scores only on its own connection |
| `Scoring.HooksAreInterchangeable` | cmd/packet_capture_wire_buffer.go:726-751 | A record scores the same on every packet whether the OpenSSL or the kernel hook reported it |
| `Scoring.HintsFixEndpoint` | cmd/packet_capture_filters.go:64-111 | With one peer and one port given, a record without addresses scores only on packets of that endpoint, in its direction |
| `Timing.BonusRange` | cmd/packet_capture_wire_buffer.go:594-616 | The time bonus is in 0..10 iff the compared gap is not the saturated minimum duration |
| `Timing.BonusSteps` | cmd/packet_capture_wire_buffer.go:594-616 | A point for every 0.5 s, 0.2 s or 3 s, by side and kind of time, that the event is inside its limit |
| `Timing.CorrelatedMeaning` | cmd/packet_capture_wire_buffer.go:586-592 | Times correlate iff the event is from 2 s before to 5 s after the packet by capture times, else within 30 s by receive times; receive times 2^63 ns apart pass too |
| `Timing.CaptureTimeMeaning` | cmd/packet_capture_plaintext.go:24-34 | Milliseconds first, then seconds, positive numbers only, without their fraction |
| `Timing.BonusCanLeaveRange` | cmd/packet_capture_wire_buffer.go:600-608 | Two concrete records whose capture times give a negative bonus, harmless because such times are not correlated |
| `Timing.FullBonusIsCoincidence` | cmd/packet_capture_wire_buffer.go:594-616 | The bonus is 10 iff the compared times coincide to the nanosecond |
| `Timing.NoBonusOutsideWindow` | cmd/packet_capture_wire_buffer.go:586-616 | Times that are not correlated get no bonus, iff the gap is not saturated |
| `Timing.BonusDecreasesWithDistance` | cmd/packet_capture_wire_buffer.go:597-616 | On each side of the packet a nearer event never gets less |
| `Filters.EnrichIdempotent` | cmd/packet_capture_filters.go:64-83 | Applying the filter hints again changes nothing |
| `Filters.EnrichKeepsKnown` | cmd/packet_capture_filters.go:74-83 | The hints never replace a known local address or port nor touch any other field |
| `Filters.EnrichSupplies` | cmd/packet_capture_filters.go:64-111 | A single peer or port completes the local end exactly where it is open; several are no hint |
| `Filters.FiltersOnTuple` | cmd/packet_capture_filters.go:113-160 | For a packet with a tuple: some filter is set, and every kind that is set holds of one of its two ends |
| `Filters.WirePacketMatchesCaptureFilters` | cmd/packet_capture_filters.go:113-160 | The loops decide: every kind of filter set has a member one of the packet's ends satisfies |
| `Exports.OverlayCorrelatedWire` | cmd/packet_capture_wire_buffer.go:372-399 | Visiting fields in any order, the overlay computes one specified record |
| `Exports.DeleteFields` | cmd/packet_capture_wire_buffer.go:380-384 | Deleting keys while visiting them in any order removes exactly the selected ones |
| `Exports.CopyMissingFields` | cmd/packet_capture_wire_buffer.go:401-414 | Copying in any order fills exactly the fields the record has nothing meaningful in |
| `Exports.OverlayField` | cmd/packet_capture_wire_buffer.go:369-414 | After the overlay all workload metadata of both ends is the packet's, other metadata is kept if meaningful, and besides them only the tuple changed |
| `Exports.OverlaySetsTuple` | cmd/packet_capture_wire_buffer.go:388-399 | The overlaid record reads back the packet's tuple |
| `Exports.PrepareUnmatchedPlaintext` | cmd/packet_capture_plaintext.go:85-114 | In any visiting order: unverified records lose their endpoints, verified reads are swapped, others stay |
| `Exports.SwapSides` | cmd/packet_capture_plaintext.go:98-113 | The two loops compute the swap of both ends' fields |
| `Exports.SwapMeaning` | cmd/packet_capture_plaintext.go:100-113 | Each field takes the value of its counterpart |
| `Exports.SwapIsInvolution` | cmd/packet_capture_plaintext.go:100-113 | Swapping twice restores the record |
| `Exports.SwapKeepsFieldCount` | cmd/packet_capture_plaintext.go:100-113 | The swap neither merges nor drops fields |
| `Exports.SwapReversesTuple` | cmd/packet_capture_plaintext.go:95-114 | The swap reverses the tuple |
| `Exports.VerifiedTupleEitherWay` | cmd/packet_capture_wire_buffer.go:255-287 | A verified record's tuple is the same on the annotated and on the unmatched line |
| `Exports.AnnotatedKeepsIdentity` | cmd/packet_capture_wire_buffer.go:255-262 | An annotated line keeps its id and says so |
| `Exports.UnmatchedKeepsIdentity` | cmd/packet_capture_wire_buffer.go:274-287 | An unmatched or unverified line keeps its id and says it has no packet |
| `Exports.UnverifiedExportsNoEndpoint` | cmd/packet_capture_plaintext.go:85-94 | A record with a guessed tuple leaves without any endpoint field |
| `Exports.AnnotatedTuple` | cmd/packet_capture_wire_buffer.go:388-399 | An annotated line shows the packet's addresses, ports and protocol |
| `Exports.AnnotatedMetadata` | cmd/packet_capture_wire_buffer.go:369-414 | It shows the packet's metadata of both ends, and other workload metadata where the record's own is empty or zero |
| `Exports.AnnotatedKeeps` | cmd/packet_capture_wire_buffer.go:255-263 | Every other field is the record's |
| `Exports.UnmatchedFields` | cmd/packet_capture_wire_buffer.go:271-287 | The line of an unmatched record field by field: a read from the socket with both ends exchanged, everything else as handed in |
| `Exports.UnverifiedFields` | cmd/packet_capture_plaintext.go:85-94 | A line written at once lacks the fields of both ends and keeps all others |
| `Records.PortTextRoundTrip` | cmd/packet_capture_wire_buffer.go:495-509 | A port in decimal, with or without a service name, reads back as itself |
| `Records.ParsePortMeaning` | cmd/packet_capture_wire_buffer.go:495-509 | A text is a port iff, before any parenthesis and without surrounding space, it is digits of a value in range |
| `Records.SpaceMeaning` | cmd/packet_capture_wire_buffer.go:500 | The space trimmed around a port is Unicode white space |
| `Records.PortOfNumber` | cmd/packet_capture_wire_buffer.go:469-493 | A number is a port iff it is in range without its fraction; values of other kinds are none |
| `Records.ValidIPMeaning` | cmd/packet_capture_wire_buffer.go:454-467 | A text is a usable address iff it parses to anything but the unspecified addresses |
| `Records.TupleReadsJSON` | cmd/packet_capture_wire_buffer.go:440-452 | A record as the agent sends it, addresses as text and ports as numbers, shows its tuple iff both addresses are specified |
| `WireBuffer.WirePacketBuffer.constructor` | cmd/packet_capture_wire_buffer.go:82-95 | An empty buffer; a window that is not positive becomes 30 seconds |
| `WireBuffer.WirePacketBuffer.TryAnnotate` | cmd/packet_capture_wire_buffer.go:239-263 | The in-place attempt is the specified one, and on success the record is as it will be exported |
| `WireBuffer.WirePacketBuffer.MatchPendingAgainstWire` | cmd/packet_capture_wire_buffer.go:227-237 | Compacting the pending slice in place while annotating is the specified pass |
| `WireBuffer.WirePacketBuffer.FlushExpiredPackets` | cmd/packet_capture_wire_buffer.go:304-315 | Compacting the packet slice in place writes the expired packets and keeps the rest in order |
| `WireBuffer.WirePacketBuffer.FlushExpiredRecords` | cmd/packet_capture_wire_buffer.go:317-328 | Compacting the pending slice in place exports the expired records and keeps the rest in order |
| `WireBuffer.WirePacketBuffer.FlushExpired` | cmd/packet_capture_wire_buffer.go:303-329 | Match, then expire packets, then records, is the specified tick |
| `WireBuffer.WirePacketBuffer.FinalizeUnmatched` | cmd/packet_capture_wire_buffer.go:274-287 | The line written for an expired record comes, apart from the display text, from the original alone |
| `WireBuffer.WirePacketBuffer.FinalizePlaintext` | cmd/packet_capture_wire_buffer.go:265-269 | The callback writes one line per finalized record, with whatever display text is computed this time |
| `WireBuffer.WirePacketBuffer.Enqueue` | cmd/packet_capture_wire_buffer.go:117-139 | Expire, append, evict the oldest beyond the limit, match; an undecodable packet changes nothing |
| `WireBuffer.WirePacketBuffer.HandlePlaintext` | cmd/packet_capture_wire_buffer.go:142-161 | Expire, try at once, else keep pending |
| `WireBuffer.WirePacketBuffer.Close` | cmd/packet_capture_wire_buffer.go:289-301 | Final match, everything written and exported, buffer empty |
| `Capture.PacketCollector.AssignPlaintextPacketID` | cmd/packet_capture_plaintext.go:12-22 | Ids count up and wrap at 64 bits |
| `Capture.PacketCollector.HandlePlaintextRecord` | cmd/packet_capture.go:181-194 | For a record with its tuple from the socket the buffer takes exactly the step for it and the log stays; for any other the log gains exactly its line, without endpoints, and the buffer stays |
| `Capture.PacketCollector.HandleWirePacket` | cmd/packet_capture.go:196-208 | For a frame whose data decodes the buffer takes exactly the step for it; nothing else changes |
| `Capture.PacketCollector.Flush` | cmd/packet_capture_wire_buffer.go:102-115 | A tick of the buffer |
| `Capture.PacketCollector.Stop` | cmd/packet_capture_wire_buffer.go:97-100 | The end of the capture flushes the buffer |
| `FlowDisplay.ShownIsFaithful` | cmd/flow_display.go:760-807 | With TLS capture the table shows the newest rows of everything accepted, for all histories of frames and plaintext, iff it shows at most 200 |
| `FlowDisplay.ShownAloneIsFaithful` | cmd/flow_display.go:680-698 | Without TLS capture it does iff it shows at most 100 |
| `FlowDisplay.PlaintextShownIsFaithful` | cmd/flow_display.go:669-677 | With plaintext alone it does iff it shows at most 300 |
| `FlowDisplay.ShownCanFallShort` | cmd/flow_display.go:644-655 | A concrete history of 201 frames for which a longer table falls short |
| `FlowDisplay.MergeNewest` | cmd/flow_display.go:644-655 | Merging two cut buffers and cutting again gives the newest rows of both histories |
| `FlowDisplay.NewestStreams` | cmd/flow_display.go:623-637 | Sorting and cutting on every append keeps the newest rows of the whole history |
| `FlowDisplay.NewestMeaning` | cmd/flow_display.go:551-558 | A row is among the newest n iff fewer than n rows are of a later time, or of its time with a higher index |
| `FlowDisplay.BeforeMeaning` | cmd/flow_display.go:539-558 | Rows are ordered by time, in milliseconds or in seconds, and rows of one time by index |
| `FlowDisplay.SortIsUnique` | cmd/flow_display.go:560-564 | Rows with distinct indices have one ascending order, whatever the sorting algorithm |
| `FlowDisplay.LiveTable.AppendToTimeSortedBuffer` | cmd/flow_display.go:623-637 | The buffer after an append is the newest rows of the longer history |
| `FlowDisplay.LiveTable.AppendFlow` | cmd/flow_display.go:657-698 | A row gets the next index and goes to the buffer of its kind; nothing happens while paused |
| `FlowDisplay.LiveTable.ClearPacketCaptureBuffers` | cmd/flow_display.go:639-642 | Both packet buffers start over |
| `FlowDisplay.LiveTable.PacketCaptureFlowSnapshot` | cmd/flow_display.go:644-655 | The snapshot is both buffers merged in ascending order, or the one buffer without TLS capture |
| `FlowDisplay.LiveTable.TrimFlowsToShowCount` | cmd/flow_display.go:571-582 | Rows in any order are cut to the newest ones; none for a limit that is not positive, and untouched when there are no more than wanted |
| `FlowDisplay.LiveTable.GetFlows` | cmd/flow_display.go:760-807 | The table is what both cut histories show, and so the newest rows accepted, up to 200 rows with TLS capture and 100 without |
| `JsonScan.SliceJSONObject` | cmd/plaintext_format.go:172-207 | The loop computes the specified scan |
| `JsonScan.SliceReturnsObject` | cmd/plaintext_format.go:172-207 | Started at the brace of any object text (RFC 8259, sections 4 and 7), nested and with escapes, between any bytes, it returns exactly the object |
| `JsonScan.CutObjectIsNone` | cmd/plaintext_format.go:172-207 | Of an object that is cut short nothing is returned |
| `JsonScan.SliceIsBraced` | cmd/plaintext_format.go:172-207 | From any bytes, what is returned stands there, from an opening to a closing brace |
| `JsonScan.ScanIgnoresRest` | cmd/plaintext_format.go:179-206 | The result does not depend on the bytes behind it |
| `ExportSearch.ExtractEmbeddedExportJSON` | cmd/plaintext_format.go:149-170 | The search terminates and returns the payload of the first hit in marker order at its earliest position, never a record itself, and nothing iff there is no hit |
| `ExportSearch.EmbeddedRecordIsNextLayer` | cmd/plaintext_format.go:88-99 | The payload of a record embedded in a frame is the frame's next layer when no earlier hit stands in it |
| `ExportSearch.UnwrapPayloadLayer` | cmd/plaintext_format.go:88-99 | The next layer is the payload of a record that is all of the data; else the payload at the first hit; else, when nothing hits, the application text behind the shortest prefix; and the data itself when there is none of these |
| `ExportSearch.UnwrapPayloadLayers` | cmd/plaintext_format.go:77-86 | The early stop makes no difference: the result is six layers peeled |
| `ExportSearch.WrappedIsLaidBare` | cmd/plaintext_format.go:77-99 | Bytes wrapped at most six deep in whole records, embedded records and prefixes are laid bare; of deeper nestings exactly six wrappings are taken off |
| `ExportSearch.EmbeddedRecordHits` | cmd/plaintext_format.go:28-32 | An export record that starts with a marker and has a payload is found whatever surrounds it |
| `ExportSearch.MarkersStartRecords` | cmd/plaintext_format.go:28-32 | Every compact record whose first member is its kind or its direction starts with a marker, whatever follows |
| `ExportSearch.TextStartMeaning` | cmd/plaintext_format.go:121-146 | Application text starts with an HTTP method or version, the agent's mark or an opening brace |
| `ExportSearch.StripLeadingApplicationPrefix` | cmd/plaintext_format.go:103-119 | Cuts the shortest prefix of at most eight bytes that application text follows, else nothing |
| `Keylog.CopyIsExact` | cmd/packet_capture.go:304-352 | Over any reads and failed writes of a growing file the blocks are exactly the file up to the offset, and cover what was there at the last successful write; none is empty |
| `Keylog.KeylogTailer.Embed` | cmd/packet_capture.go:304-319 | The first read is one step of that protocol, and fails only on a read or write error |
| `Keylog.KeylogTailer.Watch` | cmd/packet_capture.go:321-352 | Each tick is one step of that protocol |

## Left out

- Matching is greedy in pending order and the final flush makes one pass; no maximality or order independence is claimed.
- Annotation comments, packet timestamps and the text of packet comments: formatting of the capture file.
- Failed writes of packets and lines, and a missing log file or packet writer: the program logs them and goes on.
- Captures without TLS plaintext, where packets bypass the buffer: each packet is written at once.
- A wire record whose Data field is not text, and a table row whose time is not a number: the program panics on them.
- Reading capture filters from the command line (parseCaptureFilters, appendUniquePort, optionValue): option parsing.
- Conversion of floating-point numbers outside the 64-bit range, and rounding of times in the live table: numbers are real.
- FlowDisplay.LiveTable.AppendFlow: does not model the unstable order of flow mode with equal times, only packet capture; index overflow is not modelled.
- FlowDisplay.LiveTable.GetFlows: does not model regular-expression filters or the rows flow mode keeps for a selection.
- JsonScan.SliceReturnsObject: number tokens are any run of number characters, more than RFC 8259 allows, so more texts are covered.
- Content heuristics on payloads (HTTP bodies, printable ratios, best-text choice): thresholds without an independent specification.
- Signal handling, the race of the SIGTERM flush with the deferred one, and goroutine scheduling beyond the interleaving of steps.
- Terminal UI, gRPC, TLS credentials, Kubernetes calls, metrics, the flow database and the shell scripts: I/O and presentation.
