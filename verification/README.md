# Verified model of a WebRTC stack's protocol core

werift is a WebRTC implementation in TypeScript. This project models the parts of it where
correctness depends on the interplay of many steps, and proves what they keep:

- **SCTP data transfer** (`packages/sctp`): a sender with fragmentation, congestion control and the
  T3 timer, a receiver with duplicate tracking, SACKs and per-stream reassembly, and a network
  between them that loses, duplicates and reorders packets. Every await-free stretch of the source
  is one step. In every run the messages delivered on a stream are a byte-exact prefix of those
  sent on it.
- **Packets on the wire**: parameters, chunks and packets with their CRC32c; the fast
  sixteen-bytes-at-a-time CRC is polynomial division, and detects every error within four bytes.
- **ICE** (`packages/ice`): tie-breaker repair of role conflicts between two agents, and the
  consent-freshness sessions over timed runs.
- **Negotiation** (`packages/webrtc`): the promise-graph scheduler that chains description
  operations, and the transaction that owns the rollback baseline and the transports.
- **Shared containers and codecs** (`packages/common`): the FIFO queue with its iterator, the schema
  codec, and the bit stream.

TSNs and stream sequence numbers are unbounded "virtual" numbers reduced modulo 2^32 and 2^16.
Chunks carry their virtual TSN as a history label that no operation reads. What the source keeps
in fields and changes in place is a class; each of its methods is proved to compute a function on
values, and the laws are about these functions. `dafny verify dfyconfig.toml` checks the project.

## What the proofs show about the code

Where a promise turns out not to hold of the code as it is, the model keeps the code, a lemma
gives an input, and another says exactly when the promise holds.

- `[...set].sort()` compares TSNs as strings (packages/sctp/src/sctp.ts:332, 800, 864). With 9 and
  10 received after 8, the cumulative TSN stays at 8 (`TsnTracking.StrandedTsn`), and a stranded one is
  never recovered by DATA (`TsnTracking.StrandedForGood`). It advances over
  the whole received run exactly where string order agrees with numeric order on the TSNs of that
  run and those above it (`TsnTracking.JsAdvanceIsMaximalIff`), so in every run with TSNs of equally
  many digits (`Inbound.NextTsnIsMissing`). What is received, and each SACK that
  is sent, is exact in any order.
- A SACK whose gap offsets are negative (TSNs wrapped past 0) or above 65535 cannot be written; the
  exception is caught and no SACK is sent (`Sacks.SomeSacksAreNotSent`). It is sent exactly if every
  out-of-order TSN is above the cumulative one and at most 65535 away and the blocks fit the chunk
  (`Sacks.FitsIff`).
- `popMessages` keeps `startPos` after a yield (packages/sctp/src/sctp.ts:1595). One call delivers a
  message exactly if it and the undelivered ones before it are whole and each but the first starts
  right at the end of its predecessor (`StreamInvariant.DeliveredInOneCallIff`); so a whole message
  can stay behind (`StreamLimits.WholeMessageStaysBehind`), but only where another stream sent in
  between (`AssociationTheorems.DeliveryIsMaximal`).
- `popMessages` looks at a sequence number only where it judges a chunk afresh. `Bursts.CallIs` says
  what one call makes of any list. Right behind an unordered message delivered in the same call, chunks
  whose TSNs follow on are delivered whatever their sequence numbers, which are not counted; the chunk
  after the break is passed over and the next one judged afresh (`Bursts.BehindUnorderedIff`). So a
  whole unordered message can stay behind, too (`Bursts.UnorderedBehindIncomplete`,
  `Bursts.UnorderedCall`).
- `send` of an empty buffer makes no chunk but uses up a sequence number. A call delivers a message
  that is not empty exactly if the next one by its number is not empty, all that is not empty from
  there to it is whole, and each but the first starts at the end of one before it
  (`SparseStream.DeliveredDespiteEmptyIff`): messages after an empty one are delivered only in one call
  with a message before it (`StreamLimits.EmptyMessageBetween`). The count stops at the empty message
  (`SparseStream.CountStopsAtEmpty`), and from then on, up to 2^15 messages further, whatever
  arrives is held back (`SparseStream.StalledForGood`, `SparseStream.EmptyMessageStalls`).
- T3 marks acknowledged chunks for retransmission too (packages/sctp/src/sctp.ts:1202). The flight size
  is exact afterwards if and only if none of the chunks it sends again, those with less than one
  payload in front of them in the queue, was acknowledged (`FlightLaws.ExpiryIsExactIff`); a run in
  which it is not is `FlightLaws.MarkedFlightIsInexact`. After a SACK it stays exact if and only if no
  bytes are subtracted that were not in flight, or none are left (`FlightLaws.SackIsExactIff`).
- `receiveForwardTsnChunk` delivers before it prunes, and a fragment of a skipped message in front of a
  stream's list holds that delivery back. Exactly what a stream delivers is
  `Forwarding.ForwardDeliversIff`; what it does not deliver is thrown away up to the new cumulative TSN
  (`Forwarding.ForwardDisposes`), even a message that was received whole and acknowledged
  (`Forwarding.WholeMessageIsThrownAway`).
- A chunk reported in a gap block beyond the end of the last block listed is not marked as
  acknowledged (`LossDetection.ReportedIff`), which the string order of the blocks can bring about.
- There is no probe of a closed window: with nothing outstanding, a sender whose peer advertised 0 sends
  nothing until a SACK arrives (`Transmissions.ClosedWindowIsSilent`).
- `connect` starts the consent session before it leaves a failed state. An expiry guards the session
  exactly if the state is not failed or closed by then (`Consent.ConnectIsGuardedIff`); a selected TCP
  connection that closes just before leads there (`Consent.ConnectAfterFailureNeverExpires`).
- Two ICE agents settle, each changing role at most once, unless both are full, begin in the same role
  and have equal tie-breakers (`RoleConflict.SettlesIff`).
- A byte-length array of items that take no bytes decodes as empty (`Schema.VoidItemsAreLost`), or not at
  all: which arrays and objects can keep the decoder from ending is `Schema.ArrayHangsIff` and
  `Schema.ObjectHangsIff`, with an input in `Schema.EmptyObjectsHang`.
- `decodeParams` and `parsePacket` do not advance on a length field of 0
  (`ParserProgress.ZeroParamHangs`, `ParserProgress.ZeroLengthChunkHangs`). They end on exactly the
  bytes that have no header of length 0 on the way (`ParserProgress.ParamsHangIff`,
  `ParserProgress.PacketHangsIff`).

## Model

| member | source | states |
|---|---|---|
| SerialNumbers.Gt32IsVirtualOrder | packages/common/src/number.ts:29-37 | within half the number space, comparing wire TSNs gives the order of the virtual ones, and equality |
| SerialNumbers.Gt16IsVirtualOrder | packages/common/src/number.ts:18-26 | the same for 16-bit stream sequence numbers |
| SerialNumbers.HalfwayIsUnordered | packages/common/src/number.ts:29-32 | two TSNs exactly 2^31 apart are unordered both ways |
| SerialNumbers.MinusOneInvertsPlusOne | packages/sctp/src/sctp.ts:1634-1640 | `tsnMinusOne` inverts `tsnPlusOne` on every TSN but 0, where it gives -1 |
| StringOrder.SameLengthIsNumeric | packages/sctp/src/sctp.ts:864 | string order of two numbers of equally many digits is numeric order |
| StringOrder.JsSortNumeric | packages/sctp/src/sctp.ts:332 | on numbers of equally many digits the default sort is ascending |
| TsnTracking.DuplicateIsReceived | packages/sctp/src/sctp.ts:857-860 | `markReceived` answers "duplicate" for exactly the TSNs received before |
| TsnTracking.MarkReceivedIsExact | packages/sctp/src/sctp.ts:857-878 | for every enumeration order, a new TSN adds itself to the received set and nothing else; a duplicate changes neither field |
| TsnTracking.ForwardIsExact | packages/sctp/src/sctp.ts:787-810 | an accepted FORWARD-TSN makes exactly the TSNs up to its cumulative TSN count as received, in any order |
| TsnTracking.AdvanceIsMaximalIff | packages/sctp/src/sctp.ts:862-873 | the next TSN is missing after the advance if and only if the order lists each TSN of the run before every larger one |
| TsnTracking.JsAdvanceIsMaximalIff | packages/sctp/src/sctp.ts:862-873 | for the sort of the code, if and only if string order is numeric there |
| TsnTracking.AdvanceIsMaximalWhenNumeric | packages/sctp/src/sctp.ts:862-873 | same digit count and no wrap suffice: after the advance the next TSN is missing |
| TsnTracking.StrandedTsn | packages/sctp/src/sctp.ts:862-873 | 9 and 10 after 8 leave the cumulative TSN at 8 |
| TsnTracking.StrandedForGood | packages/sctp/src/sctp.ts:857-878 | a cumulative TSN whose successor was received but sorts behind another stays, with everything received above it, whatever DATA arrives |
| TsnTracking.DuplicatesAre | packages/sctp/src/sctp.ts:857-878 | after any arrivals since the last SACK, the duplicates to report are exactly the TSNs that arrived again and that no new TSN moved the cumulative TSN up to since |
| Reassembly.InboundStream.AddChunkInPlace | packages/sctp/src/sctp.ts:1522-1539 | inserts as `AddChunk` says; false exactly where the source throws, and then nothing changes |
| Reassembly.InboundStream.PopMessages | packages/sctp/src/sctp.ts:1541-1602 | running the generator to its end yields the messages and leaves the stream that `Pop` says |
| Reassembly.InboundStream.PruneChunks | packages/sctp/src/sctp.ts:1604-1623 | removes the prefix at or below the TSN and returns its size |
| Reassembly.AddChunkInserts | packages/sctp/src/sctp.ts:1522-1539 | a new TSN within 2^31 of those held is inserted at its place and the list stays strictly sorted |
| Reassembly.AddChunkThrowsOnDuplicate | packages/sctp/src/sctp.ts:1531-1534 | a TSN already in the list makes it throw |
| Reassembly.PopConservesBytes | packages/sctp/src/sctp.ts:1541-1602 | for any chunks, the bytes that leave the list are the bytes delivered |
| Forwarding.PopConservesChunks | packages/sctp/src/sctp.ts:1541-1602 | one call on any list takes whole messages out of it and keeps every other chunk: none is lost, doubled or part of two messages |
| Reassembly.PruneIsExact | packages/sctp/src/sctp.ts:1604-1623 | on a sorted list exactly the chunks at or below the TSN are removed |
| OrderedStream.PopMessagesDelivers | packages/sctp/src/sctp.ts:1541-1602 | from fragments of sent messages, delivers the next whole messages in order, byte for byte, and keeps the rest; stops at a message that misses a fragment or does not start at the end of the one delivered before it |
| StreamInvariant.MessageSent | packages/sctp/src/sctp.ts:896-929 | sending a message keeps the relation between what is sent, held and delivered on its stream |
| StreamInvariant.FragmentReceived | packages/sctp/src/sctp.ts:662-669 | so does receiving a new fragment, which may complete messages |
| StreamInvariant.DeliveredInOneCallIff | packages/sctp/src/sctp.ts:1541-1602 | for any interleaving of streams, one call delivers a message if and only if it and every undelivered one before it are whole and each but the first starts at the end of its predecessor |
| Inbound.ForwardTsnConserves | packages/sctp/src/sctp.ts:812-827 | a FORWARD-TSN returns to the window exactly what it delivers and prunes |
| Forwarding.ForwardTsnIs | packages/sctp/src/sctp.ts:787-828 | an accepted FORWARD-TSN read stream by stream: each is moved past the numbers named for it, delivers what that frees and is pruned; other streams are only pruned |
| Forwarding.ForwardDeliversIff | packages/sctp/src/sctp.ts:812-821 | on an ordered stream moved past message d-1, message k is delivered if and only if the first message held is not after d and everything from it to k is held without a break; the number of the stream ends up past d-1, at the first message that is empty or was not delivered |
| Forwarding.ForwardDisposes | packages/sctp/src/sctp.ts:812-827 | in every run each chunk a stream held is in a message delivered, or at or below the new cumulative TSN and thrown away, or above it and kept |
| Forwarding.OldForwardChangesNothing | packages/sctp/src/sctp.ts:787-793 | in every run a FORWARD-TSN at or below the cumulative TSN only makes a SACK due, whatever streams it names |
| Forwarding.WholeMessageIsThrownAway | packages/sctp/src/sctp.ts:812-827 | an input on which a message received whole is neither delivered nor kept |
| Forwarding.SackIsOwed | packages/sctp/src/sctp.ts:787-789 | after every DATA or FORWARD-TSN chunk, new or old, a SACK is due |
| Inbound.ReceiveWindowIsConserved | packages/sctp/src/sctp.ts:643-670 | after every sequence of DATA and FORWARD-TSN chunks, advertisedRwnd plus the bytes buffered is 1 MiB, the lists are strictly sorted, the bookkeeping is exact and the duplicate-chunk exception was never reached |
| Inbound.NextTsnIsMissing | packages/sctp/src/sctp.ts:787-878 | in every run whose DATA TSNs have equally many digits and do not wrap, lastReceivedTsn+1 is never among the out-of-order TSNs |
| InboundObject.SctpInbound.MarkReceivedTsn | packages/sctp/src/sctp.ts:857-878 | the fields become what `MarkReceived` says; answers whether the TSN was a duplicate |
| InboundObject.SctpInbound.ReceiveDataChunk | packages/sctp/src/sctp.ts:643-670 | the whole inbound state, the messages delivered and the exception are those of `ReceiveData` |
| InboundObject.SctpInbound.ReceiveForwardTsnChunk | packages/sctp/src/sctp.ts:787-828 | the same for `ReceiveForwardTsn`, whatever order the streams are pruned in |
| InboundObject.SctpInbound.SendSack | packages/sctp/src/sctp.ts:326-355 | hands over the SACK of the current state, or none where it cannot be written, and clears the duplicates |
| Sacks.SeenIs | packages/sctp/src/sctp.ts:703-711 | the sender's expansion is exactly the TSNs at the offsets inside some block |
| Sacks.GapsRoundTrip | packages/sctp/src/sctp.ts:329-341 | for every enumeration order, a SACK that can be written expands to exactly the receiver's out-of-order TSNs |
| Sacks.NumericGapsAreSeparated | packages/sctp/src/sctp.ts:329-341 | in numeric order the blocks are disjoint, non-adjacent, ascending and start at 2 or more |
| Sacks.FitsIff | packages/sctp/src/sctp.ts:326-355 | a SACK can be written if and only if every out-of-order TSN is above the cumulative one and at most 65535 away, and blocks and duplicates fit the chunk |
| Sacks.SomeSacksAreNotSent | packages/sctp/src/sctp.ts:333 | a wrapped and a distant TSN whose SACK cannot be written |
| Association.SackIsSentIff | packages/sctp/src/sctp.ts:326-355 | the same on the state of the receiver, with the sort of the code |
| OutboundLaws.SplitIsExact | packages/sctp/src/sctp.ts:896-923 | the fragments are non-empty, at most one payload long, as many as the source counts, and join to the message |
| OutboundLaws.AcknowledgeKeepsChunks | packages/sctp/src/sctp.ts:686-742 | a SACK removes the longest prefix of the queue at or below its cumulative TSN, keeps the other chunks in order and marks as acknowledged only what it reports |
| OutboundLaws.TransmitKeepsChunks | packages/sctp/src/sctp.ts:981-1057 | a transmission moves chunks from one queue to the other, loses and reorders none, and sends only queued chunks |
| OutboundLaws.T3GuardsEveryRun | packages/sctp/src/sctp.ts:773-777 | after every step of every run T3 is armed if and only if sentQueue is not empty |
| Transmissions.TransmissionIs | packages/sctp/src/sctp.ts:981-1057 | what `transmitOnce` sends: every marked chunk for which the flight size, with the marked ones before it, is below the window (four payloads at a time, two in recovery, within cwnd), or which is the first of a new recovery; then every new chunk that with those before it fits both windows; flightSize grows by the bytes sent |
| Transmissions.PacketsAreTheCounted | packages/sctp/src/sctp.ts:1005-1055 | a chunk is handed to the network if and only if it is counted as sent once more, each once and in queue order |
| Transmissions.ExpiryResends | packages/sctp/src/sctp.ts:1197-1221 | an expiry of T3 sends again exactly the chunks with less than one payload in front of them, first and in order, and leaves the others marked |
| Transmissions.NewDataFollowsLastSack | packages/sctp/src/sctp.ts:780 | in every run a new chunk is sent if and only if it fits, with those before it, the window of the last SACK that was not rejected as old |
| Transmissions.PeerWindowIsObeyed | packages/sctp/src/sctp.ts:1029-1055 | in every run new DATA, also at an expiry of T3, leaves flightSize within the window of that SACK, or one chunk is all that is counted; a closed window sends none |
| Transmissions.ClosedWindowIsSilent | packages/sctp/src/sctp.ts:1029-1040 | with nothing outstanding and the window closed nothing is sent, in any run, until a SACK arrives |
| Transmissions.LossIsRepairedFirst | packages/sctp/src/sctp.ts:1005-1020 | the transmission after a SACK that opens a recovery begins with the first chunk that was lost, however full the window is |
| UnorderedMessages.UnorderedMessageArrives | packages/sctp/src/sctp.ts:880-932 | a message sent unordered takes no sequence number, and its chunks are delivered as that message, byte for byte, whatever number the stream expects |
| OutboundObject.SctpOutbound.SendMessage | packages/sctp/src/sctp.ts:880-932 | fragments the message into consecutive TSNs and changes the fields as `Send` says |
| OutboundObject.SctpOutbound.RetransmitMarked | packages/sctp/src/sctp.ts:1005-1027 | the retransmission loop in place |
| OutboundObject.SctpOutbound.DrainOutbound | packages/sctp/src/sctp.ts:1029-1055 | the loop that sends new DATA in place |
| OutboundObject.SctpOutbound.TransmitNow | packages/sctp/src/sctp.ts:981-1057 | `transmitOnce`: new state and packets are those of `TransmitOnce` |
| OutboundObject.SctpOutbound.ExpandGaps | packages/sctp/src/sctp.ts:703-711 | the nested loops give the expanded set and the TSN reached last |
| OutboundObject.SctpOutbound.AdjustCongestionWindow | packages/sctp/src/sctp.ts:746-771 | slow start, congestion avoidance and fast recovery |
| OutboundObject.SctpOutbound.ReceiveSackChunk | packages/sctp/src/sctp.ts:672-785 | the whole outbound state is that of `ReceiveSack` |
| OutboundObject.SctpOutbound.ExpireTimer3 | packages/sctp/src/sctp.ts:1197-1221 | marks everything, collapses the window and transmits, as `Timer3Expired` says |
| FlightLaws.FlightIsExactUntilMarked | packages/sctp/src/sctp.ts:686-724 | in every run until a chunk is marked for retransmission, flightSize is the bytes in flight, which then are those not acknowledged |
| FlightLaws.MarkedFlightIsInexact | packages/sctp/src/sctp.ts:1202 | a run of two sends, a SACK and an expiry after which it is not |
| FlightLaws.ExpiryIsExactIff | packages/sctp/src/sctp.ts:1197-1221 | from any state, flightSize is the bytes in flight after an expiry of T3 if and only if no acknowledged chunk has less than one payload in front of it in the queue before |
| FlightLaws.SackIsExactIff | packages/sctp/src/sctp.ts:686-742 | from any state with an exact flightSize, it is exact after a SACK if and only if the SACK subtracts no bytes that were not in flight, or nothing is left in flight |
| FlightLaws.WindowsHoldInEveryRun | packages/sctp/src/sctp.ts:999-1055 | whenever new DATA is sent, also by the expiry of T3, flightSize is below cwnd plus one payload, and within the peer window unless one chunk is all that is counted |
| FlightLaws.PayloadsHoldInEveryRun | packages/sctp/src/sctp.ts:896-923 | in every run no transmission sends a chunk with more than one payload of data |
| LossDetection.GapAckIsPointwise | packages/sctp/src/sctp.ts:713-724 | exactly the entries the gap blocks report, up to the last TSN they reach, become acknowledged |
| LossDetection.StrikeIsPointwise | packages/sctp/src/sctp.ts:726-743 | exactly the entries a SACK passes over are struck; a chunk is marked for retransmission at its third strike, and a loss is declared if and only if one is |
| LossDetection.SackIsPointwise | packages/sctp/src/sctp.ts:686-743 | one SACK on a queue in sequence: what is at or below its cumulative TSN is dropped, what it reports is marked, what it does not report below a TSN it newly reports is struck, and a third strike is a loss |
| LossDetection.ReportedIff | packages/sctp/src/sctp.ts:703-724 | a chunk counts as reported if and only if its offset is in some block and not beyond the end of the last block |
| CongestionLaws.SackGrowsTheWindow | packages/sctp/src/sctp.ts:746-757 | without a loss cwnd grows only if it was full and chunks left the queue: in slow start by exactly the bytes newly acknowledged, up to a payload, above ssthresh by a payload for every window's worth of them |
| CongestionLaws.RecoveryOpensIff | packages/sctp/src/sctp.ts:726-767 | outside a recovery a SACK opens one if and only if it passes over some chunk for the third time |
| CongestionLaws.LossHalvesTheWindow | packages/sctp/src/sctp.ts:758-767 | a loss halves cwnd, not below four payloads, and opens a recovery up to the last TSN sent |
| CongestionLaws.ExpiryRestartsSlowStart | packages/sctp/src/sctp.ts:1209-1219 | an expiry of T3 ends any recovery and starts over with one payload, in slow start up to half the old cwnd or four payloads |
| CongestionLaws.OneReductionPerRecovery | packages/sctp/src/sctp.ts:746-771 | in every run cwnd is reduced once per recovery, however many losses are seen |
| CongestionLaws.RecoveryEndsAtItsExit | packages/sctp/src/sctp.ts:768-771 | and the recovery ends exactly with the first SACK for its last TSN, which leaves cwnd as it was |
| CongestionLaws.GrowthIsBounded | packages/sctp/src/sctp.ts:746-771 | in every run cwnd grows by at most one payload per SACK above four payloads |
| CongestionLaws.WindowKeepsOnePayload | packages/sctp/src/sctp.ts:1197-1221 | in every run cwnd is at least one payload |
| AssociationTheorems.StepKeepsInv | packages/sctp/src/sctp.ts:643-785 | every step of the two-party protocol keeps its invariant |
| AssociationTheorems.OrderedDelivery | packages/sctp/src/sctp.ts:643-946 | in every run the messages delivered on a stream are a prefix of those given to `send` for it, byte for byte |
| AssociationTheorems.DeliveryIsMaximal | packages/sctp/src/sctp.ts:1541-1602 | on any number of streams, the first undelivered message of a stream misses a TSN that was not received, or the TSN after the message before it was used by another stream |
| AssociationTheorems.SingleStreamDeliveryIsMaximal | packages/sctp/src/sctp.ts:1541-1602 | with one stream, the first undelivered message misses a TSN that was not received |
| AssociationTheorems.NoChunkIsForgotten | packages/sctp/src/sctp.ts:672-1057 | in every run the queues hold exactly the consecutive TSNs after lastSackedTsn in order, every TSN created is queued or received by the peer, and every chunk flagged acknowledged is |
| AssociationAccounts.SentCountIsTransmissions | packages/sctp/src/sctp.ts:1005-1055 | in every run the sentCount of a queued chunk is how often it was handed to the network; chunks of sentQueue were, those of outboundQueue never |
| AssociationAccounts.WindowIsFreeSpace | packages/sctp/src/sctp.ts:643-670 | in every run of the two parties advertisedRwnd plus the bytes buffered is 1 MiB |
| AssociationAccounts.EverySackIsTruthful | packages/sctp/src/sctp.ts:326-355 | every SACK on the network was built at some point of the run and says of every TSN whether it had been received by then, the duplicates, and the room left |
| AssociationAccounts.PeerWindowIsFreeSpace | packages/sctp/src/sctp.ts:780 | in every run the peer window the sender keeps is that of the handshake or the room the receiver had when it built some SACK |
| AssociationAccounts.SackIsOwedIff | packages/sctp/src/sctp.ts:643-645 | in every run a SACK is due if and only if DATA, new or duplicate, arrived after the last one |
| AssociationAccounts.AdvancedIsSacked | packages/sctp/src/sctp.ts:1326-1328 | in every run advancedPeerAckTsn is lastSackedTsn, as nothing is abandoned |
| StreamLimits.WholeMessageStaysBehind | packages/sctp/src/sctp.ts:1580-1600 | of two whole messages in sequence the second stays behind when their TSNs are not adjacent |
| StreamLimits.EmptyMessageBetween | packages/sctp/src/sctp.ts:896-932 | a message, an empty one and another: a receiver that holds both chunks delivers both, one that delivered the first before holds the last back |
| SparseStream.DeliveredDespiteEmptyIff | packages/sctp/src/sctp.ts:1541-1602 | with empty messages sent too, one call delivers a non-empty message if and only if the next one by number is not empty, all non-empty ones up to it are whole, and each but the first starts at the end of one before it |
| SparseStream.CountStopsAtEmpty | packages/sctp/src/sctp.ts:1586-1590 | after the call the sequence number is that of the first message that is empty or was not delivered |
| SparseStream.StalledForGood | packages/sctp/src/sctp.ts:1522-1602 | while every chunk has a later number than the stream, nothing is delivered and the number stays, for every sequence of arrivals |
| SparseStream.EmptyMessageStalls | packages/sctp/src/sctp.ts:1556-1561 | the messages after an empty one whose turn it is have later numbers, up to 2^15 of them |
| Bursts.BehindUnorderedIff | packages/sctp/src/sctp.ts:1541-1602 | for any list that begins with an unordered message: the chunks whose TSNs follow on are delivered as far as one ends a message, whatever their sequence numbers; the chunk after the break is passed over and the next judged afresh; the number is not advanced |
| Bursts.CallIs | packages/sctp/src/sctp.ts:1541-1602 | what one call makes of any list, ordered or not, burst by burst |
| Bursts.PopIsBurst | packages/sctp/src/sctp.ts:1563-1600 | at any cursor inside a message, the generator delivers the chunks of consecutive TSNs cut at their last-fragment flags |
| Bursts.UsedIff | packages/sctp/src/sctp.ts:1576-1596 | a chunk of a burst is delivered if and only if it or a later one of the burst ends a message |
| Bursts.UnorderedCall | packages/sctp/src/sctp.ts:1541-1602 | on an unordered stream one call delivers exactly the messages its bursts cut, and leaves the number |
| Bursts.UnorderedBehindIncomplete | packages/sctp/src/sctp.ts:1566-1573 | a whole unordered message behind an incomplete one stays behind exactly if its TSN does not follow on |
| Parameters.ParamsRoundTrip | packages/sctp/src/chunk.ts:494-520 | decoding a parameter list restores it, with the padding between parameters skipped |
| Parameters.EncodeParamList | packages/sctp/src/chunk.ts:494-508 | the loop that delays the padding writes none after the last parameter |
| Parameters.DecodeParamList | packages/sctp/src/chunk.ts:510-520 | the loop over positions computes `DecodeParams`, on any bytes |
| Parameters.StreamParamRoundTrip | packages/sctp/src/param.ts:45-79 | reset request, response and add-streams parameters are parsed back as written |
| Chunks.SackRoundTrip | packages/sctp/src/chunk.ts:367-420 | gap blocks and duplicates of a SACK come back in order |
| Chunks.InitRoundTrip | packages/sctp/src/chunk.ts:85-114 | INIT and INIT ACK with their parameters come back |
| Chunks.ForwardRoundTrip | packages/sctp/src/chunk.ts:148-182 | FORWARD-TSN with its streams comes back |
| Chunks.BodyRoundTrip | packages/sctp/src/chunk.ts:463-487 | every kind of chunk is parsed back by the class registered for its type |
| Chunks.ChunksRoundTrip | packages/sctp/src/chunk.ts:542-556 | bundled chunks are read back one by one, whatever padding lies between them |
| Chunks.ParseChunkList | packages/sctp/src/chunk.ts:542-557 | the loop of `parsePacket` computes `ParseChunks`, on any bytes |
| Chunks.ReadStreams | packages/sctp/src/chunk.ts:152-158 | the loop of the FORWARD-TSN constructor; throws exactly on a partial pair |
| Packets.PacketRoundTrip | packages/sctp/src/chunk.ts:522-582 | parsing a serialized packet returns ports, tag and the chunk |
| Packets.BundleRoundTrip | packages/sctp/src/chunk.ts:522-558 | the same for any list of chunks |
| Packets.CorruptionIsRejected | packages/sctp/src/chunk.ts:530-540 | a packet that differs from an accepted one inside four bytes, on or off the checksum field, is refused |
| Packets.DataTravels | packages/sctp/src/chunk.ts:207-238 | a DATA chunk with its fragment flags arrives as sent |
| Packets.FitsIsEncodable | packages/sctp/src/chunk.ts:391-420 | for any SACK the code can build, also with negative offsets, the protocol model sends it exactly if it can be written |
| Packets.SackTravels | packages/sctp/src/chunk.ts:367-420 | from tracker to bytes and back, the sender's expansion is the receiver's out-of-order set |
| Packets.PolynomialIsCastagnoli | packages/common/src/crc.ts:5 | the constant is the reflected CRC32c polynomial, exponent by exponent |
| Packets.CheckValue | packages/common/src/crc.ts:135-137 | the CRC32c of the nine digits is the catalogued check value 0xe3069283 |
| Samples.DataSample | packages/sctp/tests/packet.test.ts:94-106 | the DATA packet of the test suite, byte for byte with its checksum |
| Samples.SackSample | packages/sctp/tests/packet.test.ts:220-233 | the SACK packet of the test suite, byte for byte with its checksum |
| Samples.ForwardLayout | packages/sctp/tests/packet.test.ts:132-141 | the FORWARD-TSN chunk of the test suite, byte for byte |
| Samples.InitLayout | packages/sctp/tests/packet.test.ts:39-47 | the INIT chunk of the test suite with its five parameters and their padding, byte for byte |
| ParserProgress.ParamsHangIff | packages/sctp/src/chunk.ts:510-520 | `decodeParams` never throws, and does not end on exactly the buffers with a reachable header of length 0 |
| ParserProgress.ZeroParamHangs | packages/sctp/src/chunk.ts:510-520 | four zero bytes are such a buffer |
| ParserProgress.BodyHangsIff | packages/sctp/src/chunk.ts:546-554 | which chunk bodies contain such a parameter list |
| ParserProgress.ChunksHangIff | packages/sctp/src/chunk.ts:542-557 | the chunk loop does not end exactly if, after chunks that are parsed, it reaches one of length 0 that is accepted or one whose parameter list does not end |
| ParserProgress.PacketHangsIff | packages/sctp/src/chunk.ts:522-558 | the same for a packet, whose checksum must be right |
| ParserProgress.ZeroLengthChunkHangs | packages/sctp/src/chunk.ts:522-558 | a packet with a right checksum and a COOKIE ACK of length 0 is one, for any header |
| Packets.PayloadLimitIsExact | packages/sctp/src/sctp.ts:65-82 | a DATA packet fits the MTU if and only if its payload is within the limit, and exactly the MTUs of 32 bytes and more are accepted |
| Packets.DataPacketsFitMtu | packages/sctp/src/sctp.ts:896-923 | in every run of a sender no DATA packet it transmits is longer than the MTU |
| Crc.GenerateCrcTable | packages/common/src/crc.ts:11-27 | entry n is byte n after eight register steps, for any polynomial |
| Crc.GenerateSliceBy16Tables | packages/common/src/crc.ts:29-48 | table k holds each byte after k+1 byte steps |
| Crc.SliceAdvances | packages/common/src/crc.ts:97-115 | one turn of the fast loop is sixteen bytes of the slow one |
| Crc.CrcBuffer | packages/common/src/crc.ts:86-121 | fast loop and tail together give the checksum, for every byte string, seed and polynomial |
| Crc.ChecksumChains | packages/common/src/crc.ts:86-121 | crc(a ++ b, s) = crc(b, crc(a, s)) |
| CrcDivision.RunIsRegister | packages/common/src/crc.ts:14-24 | byte at a time is bit at a time |
| CrcDivision.ChecksumIsRemainder | packages/common/src/crc.ts:86-121 | the checksum is the complemented remainder of schoolbook polynomial division |
| CrcDivision.BurstIsDetected | packages/common/src/crc.ts:4-5 | with a constant term in the polynomial, messages that differ only inside four bytes have different checksums |
| CrcDivision.SomeBurstPasses | packages/common/src/crc.ts:4-5 | without it, some such pair has the same |
| CrcText.CrcGenericString | packages/common/src/crc.ts:50-84 | the checksum of a string is that of the bytes fed for its code units |
| CrcText.StringBytesAreUtf8 | packages/common/src/crc.ts:61-82 | on well-formed UTF-16 these bytes are its UTF-8 encoding |
| Fifo.FifoQueue.Push | packages/common/src/queue.ts:25-28 | appends to the sequence the queue stands for |
| Fifo.FifoQueue.Shift | packages/common/src/queue.ts:31-39 | removes the first element and keeps copies by compaction at most the number of shifts |
| Fifo.FifoQueue.Compact | packages/common/src/queue.ts:123-132 | does not change the sequence, and copies either nothing or what is left |
| Fifo.FifoQueue.Unshift | packages/common/src/queue.ts:42-51 | puts an element in front |
| Fifo.FifoQueue.Peek | packages/common/src/queue.ts:54-56 | the first element, or none |
| Fifo.FifoQueue.Last | packages/common/src/queue.ts:59-61 | the last element, or none |
| Fifo.FifoQueue.At | packages/common/src/queue.ts:64-69 | the element at an index from either end, or none outside |
| Fifo.FifoQueue.FindIndex | packages/common/src/queue.ts:71-76 | the first index that satisfies the predicate, or -1 when none does |
| Fifo.FifoQueue.Filter | packages/common/src/queue.ts:79-86 | a new queue of the elements kept, in order |
| Fifo.FifoQueue.Clear | packages/common/src/queue.ts:94-97 | empties the queue and counts the elements as removed |
| Fifo.FifoQueue.Resume | packages/common/src/queue.ts:108-116 | one resumption of the generator, from the fields as they are then |
| Fifo.IterationIsOrdered | packages/common/src/queue.ts:103-116 | whatever is done in between, an iterator yields no element twice and in queue order |
| Fifo.IterationSkipsOnlyRemoved | packages/common/src/queue.ts:103-116 | what it passes without yielding had left by the front before its turn |
| Fifo.IterationIsComplete | packages/common/src/queue.ts:103-116 | when it finishes, every element still in the queue that was not put back was yielded |
| RoleConflict.IceAgent.SwitchTo | packages/ice/src/ice.ts:2064-2080 | changes the role of the agent and of every pair; a lite agent stays controlled |
| RoleConflict.IceAgent.HandleRequest | packages/ice/src/ice.ts:981-1017 | switches, refuses with 487 or answers, by role and tie-breaker |
| RoleConflict.IceAgent.HandleConflict | packages/ice/src/ice.ts:2293-2298 | a 487 reverses the role the refused check was sent in |
| RoleConflict.AtMostOneChange | packages/ice/src/ice.ts:981-1017 | in every run with distinct tie-breakers, or one lite agent, each agent changes role at most once |
| RoleConflict.ComplementaryRolesStay | packages/ice/src/ice.ts:981-1017 | roles that are complementary stay as they are for the rest of the run |
| RoleConflict.ConflictEndsWithWinner | packages/ice/src/ice.ts:981-1017 | a conflict can only end with the larger tie-breaker controlling |
| RoleConflict.OneExchangeRepairs | packages/ice/src/ice.ts:2293-2298 | one completed check, from either side, ends it |
| RoleConflict.AnswerTells | packages/ice/src/ice.ts:981-1017 | a check is answered with 487 if and only if the roles still clash, and not at all if and only if the agent takes control |
| RoleConflict.SettledChecksSucceed | packages/ice/src/ice.ts:981-1017 | in every run, once the roles are complementary every check sent from then on succeeds and changes nothing |
| RoleConflict.EqualTieBreakersOscillate | packages/ice/src/ice.ts:985-1003 | with equal tie-breakers and roles, controlling or controlled, there is a run in which an agent changes role twice |
| RoleConflict.SettlesIff | packages/ice/src/ice.ts:981-1017 | for any two agents, full or lite: in every run each changes role at most once, if and only if they are not both full with equal tie-breakers and the same initial role |
| Consent.Connection.StopConsentLifecycle | packages/ice/src/ice.ts:1627-1641 | ends the session: new id, not fresh, no timer |
| Consent.Connection.StartConsent | packages/ice/src/ice.ts:1686-1767 | the new session up to its first suspension |
| Consent.Connection.OnResponse | packages/ice/src/ice.ts:1831-1862 | re-arms the expiry for a response of the current session, pair, generation and password, and changes nothing otherwise |
| Consent.Connection.OnExpiry | packages/ice/src/ice.ts:1714-1735 | the expiry callback fails the connection only in its own session |
| Consent.Connection.MaySend | packages/ice/src/ice.ts:1653-1665 | whether application data may be sent |
| Consent.SendingNeedsFreshConsent | packages/ice/src/ice.ts:1653-1665 | in every timed run, a connected full agent may send only if its current session began, or got a valid response for the pair still selected, within 30 s |
| Consent.ConfirmationArms | packages/ice/src/ice.ts:1708-1757 | in every run a confirmation arms the expiry 30 s ahead; one that begins a session starts its request loop |
| Consent.ExpiryNeedsSilence | packages/ice/src/ice.ts:1857-1858 | the converse: in every timed run consent expires only after 30 s in which the session was not confirmed once |
| Consent.ConfirmedConsentStays | packages/ice/src/ice.ts:1857-1858 | while the session is confirmed within 30 s of every due expiry, it never expires and data may be sent until a restart, reset, close or loss of the connection |
| Consent.FailureStopsSending | packages/ice/src/ice.ts:1081-1097 | after an expiry or the loss of the connection nothing is sent until a pair is selected, `connect` ends or the agent restarts |
| Consent.RestartRecovers | packages/ice/src/ice.ts:768-774 | after a restart, a selected pair and the end of `connect`, data may be sent under an expiry 30 s ahead, whatever happened before |
| Consent.ResponseConfirmsIff | packages/ice/src/ice.ts:1831-1862 | in every run the response to a request ever sent confirms consent if and only if its session goes on, the agent is alive and the password is the same |
| Consent.LoopAsksForConsent | packages/ice/src/ice.ts:1782-1810 | the request loop of a live session sends a request whose response would be accepted |
| Consent.LateResponsesChangeNothing | packages/ice/src/ice.ts:1831-1848 | the response to a request of an ended session changes nothing, whenever it comes |
| Consent.OnlyTheCurrentSessionExpires | packages/ice/src/ice.ts:1708-1720 | no timer of an earlier session is ever armed |
| Consent.NothingIsSentWithoutNewPair | packages/ice/src/ice.ts:768-774 | in every run, after a restart, reset or close nothing is sent until a pair is selected again, and the session has ended |
| Consent.ConnectIsGuardedIff | packages/ice/src/ice.ts:1553-1556 | at the end of a run that ends in `connect` with a pair selected, an expiry bounds the time if and only if the state was not failed or closed; otherwise the run can go on for any time and data may be sent |
| Consent.ConnectAfterFailureNeverExpires | packages/ice/src/ice.ts:1081-1097 | a run that gets there: the selected TCP connection closes just before |
| OperationsChain.DescriptionChain.Register | packages/webrtc/src/peerConnection.ts:794-823 | registers at the end of the chain, or refuses when closed |
| OperationsChain.DescriptionChain.Continue | packages/webrtc/src/peerConnection.ts:824-829 | the body begins, unless `close` overtook it |
| OperationsChain.DescriptionChain.Complete | packages/webrtc/src/peerConnection.ts:829-842 | settles the operation and releases both its promises |
| OperationsChain.OrdinaryOperationsAreSerial | packages/webrtc/src/peerConnection.ts:808-825 | in every run an ordinary operation has begun only if every earlier call has settled |
| OperationsChain.CandidateOperationsWait | packages/webrtc/src/peerConnection.ts:817-825 | a candidate operation has begun only if every earlier call applied or settled, and every earlier candidate operation settled |
| OperationsChain.ResumesIff | packages/webrtc/src/peerConnection.ts:808-825 | nothing else holds an operation up: a waiting ordinary one can begin exactly if all earlier calls have settled, a candidate one exactly if they have applied or settled |
| OperationsChain.OutcomeIsOfTheBody | packages/webrtc/src/peerConnection.ts:829-842 | in every run an operation fails exactly if its body threw, unless `close` came first, and its outcome and releases are final |
| OperationsChain.MarkReleasesTheRunningOperation | packages/webrtc/src/peerConnection.ts:826 | `markDescriptionApplied` releases the operation that calls it, never another |
| OperationsChain.NoOperationIsStuck | packages/webrtc/src/peerConnection.ts:807-842 | while a call is unsettled, closed or not, it or an earlier one can take a turn |
| OperationsChain.TurnsAreBounded | packages/webrtc/src/peerConnection.ts:807-842 | in any run, whatever is enqueued, marked or closed in between, the first n calls take at most two turns each |
| OperationsChain.CloseOvertakes | packages/webrtc/src/peerConnection.ts:807-842 | in every run, after `close` nothing is registered, no body begins and what settles is rejected |
| NegotiationObject.ProposalResources.Assign | packages/webrtc/src/negotiationTransaction.ts:58-69 | copies every resource of another proposal |
| NegotiationObject.ProposalResources.Copy | packages/webrtc/src/negotiationTransaction.ts:52-56 | a fresh object with the same resources |
| NegotiationObject.NegotiationTransaction.RecordOffer | packages/webrtc/src/negotiationTransaction.ts:220-237 | the offer snapshot, extended only by transceivers added since |
| NegotiationObject.NegotiationTransaction.Open | packages/webrtc/src/negotiationTransaction.ts:244-261 | captures the baseline once |
| NegotiationObject.NegotiationTransaction.RestoreTo | packages/webrtc/src/negotiationTransaction.ts:553-587 | restores the bindings and stops what no restored owner uses |
| NegotiationObject.NegotiationTransaction.ReplaceProposal | packages/webrtc/src/negotiationTransaction.ts:336-371 | back to the baseline, which stays |
| NegotiationObject.NegotiationTransaction.RollBack | packages/webrtc/src/negotiationTransaction.ts:373-381 | back to the baseline, and closed |
| NegotiationObject.NegotiationTransaction.UndoTo | packages/webrtc/src/negotiationTransaction.ts:392-406 | back to a checkpoint with its resources |
| NegotiationObject.NegotiationTransaction.CommitAnswer | packages/webrtc/src/negotiationTransaction.ts:276-309 | stops the candidate transports without a live binding, and only those |
| NegotiationObject.NegotiationTransaction.Close | packages/webrtc/src/negotiationTransaction.ts:414-431 | stops everything the transaction held |
| Negotiation.NoTransportIsLost | packages/webrtc/src/negotiationTransaction.ts:184-188 | at every point of every run a transport that runs is bound, held by the baseline or tracked as created |
| Negotiation.CommitLeavesNoOrphan | packages/webrtc/src/negotiationTransaction.ts:291-308 | in every run, of the transports that run before a commit exactly those run after it that a transceiver which is not stopped or SCTP is bound to; bindings stay, and the transaction is over |
| Negotiation.TransportStopsIff | packages/webrtc/src/negotiationTransaction.ts:276-587 | in every run, exactly which transports each step stops: what an undone proposal held or removed and leaves unbound, what a commit leaves without a live owner, or what is closed or discarded by name |
| Negotiation.ProposalLeavesNothing | packages/webrtc/src/negotiationTransaction.ts:553-587 | a transport handed to a proposal has stopped or is bound when the proposal is rolled back or replaced |
| Negotiation.CandidatesAreTakenOnce | packages/webrtc/src/negotiationTransaction.ts:472-481 | while a proposal goes on, every take hands over exactly the prepared transports that no earlier take did |
| Negotiation.DisposeLeavesNothing | packages/webrtc/src/negotiationTransaction.ts:414-431 | closing during a transaction stops every transport; otherwise only bound ones run on |
| Negotiation.FirstBaselineStays | packages/webrtc/src/negotiationTransaction.ts:253-256 | through any mix of begin, replace, checkpoint restore and pranswer the baseline is the first one |
| Negotiation.RollbackRestoresTheFirstBaseline | packages/webrtc/src/negotiationTransaction.ts:373-381 | a rollback puts every transceiver and SCTP back to what they were when the transaction was opened |
| Negotiation.RollbackRestoresTheOfferSnapshot | packages/webrtc/src/negotiationTransaction.ts:239-256 | for a local offer, to what they were before its `createOffer` |
| Negotiation.RestoreStopsTheProposal | packages/webrtc/src/negotiationTransaction.ts:553-587 | a restore stops exactly what the proposal held, the transports of the transceivers it removes and the one SCTP ran on, as far as nothing is bound to them afterwards |
| Negotiation.ReplaceReturnsToBaseline | packages/webrtc/src/negotiationTransaction.ts:336-371 | a replacement starts from the baseline, with nothing of the earlier proposal but what it describes again |
| Negotiation.FirstOfferSnapshotStays | packages/webrtc/src/negotiationTransaction.ts:227-236 | repeated `createOffer` calls keep what the first recorded |
| Negotiation.CheckpointUndoes | packages/webrtc/src/negotiationTransaction.ts:387-406 | a failed operation is undone to its checkpoint and the baseline is not touched |
| Schema.RoundTrip | packages/common/src/binaryData.ts:180-256 | decoding an encoded value followed by any bytes returns the value and leaves those bytes |
| Schema.DecodeIsCanonical | packages/common/src/binaryData.ts:219-256 | a decoded value encodes to exactly the bytes it was decoded from |
| Schema.DecodeEnds | packages/common/src/binaryData.ts:420-429 | with items that take bytes, the byte-length loop ends on every input |
| Schema.ArrayHangsIff | packages/common/src/binaryData.ts:405-437 | an array can keep the decoder from ending if and only if its length can be positive and its items can, or it is measured in bytes and its items take none |
| Schema.ObjectHangsIff | packages/common/src/binaryData.ts:230-256 | an object can keep the decoder from ending if and only if one of its fields can and every field before that one decodes on some input |
| Schema.DecodeIgnoresRest | packages/common/src/binaryData.ts:219-256 | decoding looks at nothing behind what it consumes |
| Schema.EmptyObjectsHang | packages/common/src/binaryData.ts:420-429 | an input on which one does |
| Schema.EncodingIsEmpty | packages/common/src/binaryData.ts:193-217 | which types encode to no bytes |
| Schema.VoidItemsAreLost | packages/common/src/binaryData.ts:420-429 | an array of such items measured in bytes decodes as empty |
| SchemaObject.BinaryReader.TakeBuffer | packages/common/src/binaryData.ts:59-64 | the next bytes, or nothing where the source throws |
| SchemaObject.BinaryReader.TakeUIntBE | packages/common/src/binaryData.ts:66-71 | the number they stand for |
| SchemaObject.BinaryWriter.WriteUIntBE | packages/common/src/binaryData.ts:95-111 | appends the number, if it fits |
| SchemaObject.DecodeType | packages/common/src/binaryData.ts:219-256 | the recursion over the reader computes `Decode` |
| SchemaObject.DecodeByBytes | packages/common/src/binaryData.ts:420-429 | the byte-length loop over the reader |
| SchemaObject.DecodeByCount | packages/common/src/binaryData.ts:430-434 | the counted loop over the reader |
| SchemaObject.EncodeType | packages/common/src/binaryData.ts:180-217 | the recursion over the writer appends what `Encode` says |
| BitStreams.BitStream.WriteBits | packages/common/src/binary.ts:221-256 | the low bits of the value follow what was written, which is not altered |
| BitStreams.BitStream.ReadBits | packages/common/src/binary.ts:258-285 | the number at the current bit position |
| BitStreams.BitStream.SeekTo | packages/common/src/binary.ts:287-294 | moves to a bit position |
| BitStreams.WriteThenRead | packages/common/src/binary.ts:211-295 | fields of 1 to 31 bits written to any buffer they fit come back modulo their width |

## Left out

- Sender-side partial reliability (`maybeAbandon`, expiry, maxRetransmits): the code does not keep the sender's invariants there; only the receiver side of FORWARD-TSN is modelled.
- SCTP handshake, cookies, heartbeats, shutdown and stream reset procedures; the association starts established.
- An initial TSN of 0: `tsnMinusOne` gives -1 there, so the models start at 1 or more.
- AssociationTheorems.OrderedDelivery: for non-empty ordered messages, fewer than 2^31 TSNs and, per stream, 2^15 messages outstanding, and packets less than 2^31 TSNs old; beyond that 32-bit TSNs are ambiguous.
- Forwarding.ForwardDeliversIff: for a stream the chunk names once, with messages less than 2^15 apart; a stream named again is moved in turn, as `Forwarding.ForwardTsnIs` says.
- Forwarding.ForwardDisposes: for chunks held within 2^31 TSNs of the new cumulative TSN; older ones compare as newer.
- LossDetection.SackIsPointwise: for a sent queue of consecutive TSNs, which is what `AssociationTheorems.NoChunkIsForgotten` gives in every run.
- RTO smoothing, RTT statistics and when a SACK is scheduled: T3 and SACKs may happen at any time in the model.
- `transmitOnce` and `sendSack` are one step each; what may run between their awaits is not interleaved, nor are send waiters and aliasing of chunk objects modelled.
- `isStopped` and the close of an association.
- ICE gathering, candidate pairing, the provisional generation and TCP pruning; the setter of the ICE role by offer and answer.
- Consent request cadence and transaction timeouts: any request ever sent may be answered at any time. Timers fire when due.
- Everything in peerConnection.ts but the operations chain; microtask delays between the resolution of a promise and what waits for it are any schedule.
- Transceiver, SCTP and router managers behind the negotiation transaction: a binding map with snapshot and restore. SCTP of the baseline is restored whenever there was one. Only an open transaction moves a transceiver or SCTP from one transport to another, commits or returns to a checkpoint, as the description operations do.
- NegotiationObject.NegotiationTransaction.Open: does not revert the MIDs and m-line indexes that an unapplied `createOffer` reserved (packages/webrtc/src/negotiationTransaction.ts:245-252), because the binding map holds no MIDs.
- NegotiationObject.NegotiationTransaction.CommitAnswer: does not switch staged routes and receive entries or stop displaced transceivers (packages/webrtc/src/negotiationTransaction.ts:278-290), which belong to the router and the transceivers.
- Retired ufrags and staged remote answers of the negotiation transaction; its phases carry no property.
- Length callbacks, strings and context objects of the schema codec.
- `forEach` and `toArray` of the queue, bit fields of 32 bits, and the other helpers of packages/common.
- DTLS, SRTP, certificates, SDP text, TURN, mDNS and media.
