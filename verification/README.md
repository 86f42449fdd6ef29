# A verified model of a user-space TCP/IP stack

The project models the protocol core of the stack in `src`: TCP (`src/tcp.c`) with its retransmission queue, blocking
calls and PCB table; the Internet checksum, byte order and linked queue of `src/util.c`; UDP (`src/udp.c`); ARP
(`src/arp.c`); IP output, input and routing (`src/ip.c`); Ethernet framing (`src/ether.c`); the protocol queues of
`src/net.c`; and the wait protocol of `src/platform/linux/sched.c`.

TCP is modelled at three levels.

- `Tcp` gives every critical section of `tcp.c` as a function on one PCB as a value, with 32-bit and 16-bit arithmetic
  as in the source. `Retransmit`, `TcpRun` and `TcpPackets` prove what holds in every run of one slot against any peer.
- `Link`, `TcpPair` and `PairProof` put two PCBs at the ends of two in-order channels and prove reliable delivery, flow
  control and the tiling of the retransmission queue for every run of the pair; `PairEffects` proves that no octet is
  lost on the way, and what single steps achieve there.
- `TcpSlot` and `TcpTable` are the imperative form: a PCB whose fields, buffer and queue are updated in place, and the
  table of sixteen PCBs. Each method is proved to compute the function of `Tcp` that the theorems are about. `TcpSend`
  treats the loop of `tcp_send` with everything that may happen during its sleeps, and `TcpQueue` the retransmission
  queue on the linked queue of `src/util.c`.

The other protocols follow the same pattern: a specification with theorems over every run, and a class whose methods
are proved to take exactly the steps of that specification. `Wire` gives the octets of every layer as functions, and
`Frames` fills the source's buffers in place with them. `Output` joins routing, ARP and framing.

A critical section, from taking a mutex (or waking from a sleep) to giving it up, is one atomic step, and every theorem
about runs is about every order of such steps. The clock, `random()`, the success of `ip_output`, whether a condition
variable could be destroyed, and the results of sleeps are arguments. The host is little-endian; addresses and ports
are the integers that the host loads from memory.

Where the code departs from what one might expect, the model follows the code; one theorem says exactly when the
expected property holds, and another shows an input at which it fails:

- the copy into the receive buffer: `TcpRun.OverrunExactly`, `TcpRun.OverrunIsReached`;
- sequence numbers that wrap: `TcpRun.SendVariablesIff`, `TcpRun.WrapIsReached`;
- a FIN that carries text: `TcpRun.FinWithTextIff`, `TcpRun.FinWithTextIsReached`;
- text out of order: `TcpRun.InPlaceIff`, `TcpRun.GapIsSkipped`;
- acknowledgements inside a segment: `Link.TilesCleanupIff`, `Link.PartialAckDropsAll`;
- resets in answer to resets: `TcpPackets.ResetForResetIff`, `TcpPackets.ResetForResetIsReached`;
- active opens of a pair in use: `TcpTable.ActiveOpenUniqueIff`, `TcpTable.TwoOpensShareAPair`;
- output from the address 0.0.0.0: `Wire.UdpEndToEnd`, `Wire.AnySourceIsDropped`;
- output to a next hop that is not resolved: `Output.LengthWithoutFrameIff`, `Output.FirstDatagramIsLost`;
- the automatic port of a wildcard PCB on a host with several addresses: `Udp.AutomaticPortIff`,
  `Udp.TwoAddressesCollide`;
- the ARP state stored by a miss, and a time-out of 31 seconds where the constant says 30: `Arp.MissLeavesNothing`,
  `Arp.ExpiredIff`;
- interrupts that find nobody asleep: `Sched.ClearableIff`, `Sched.InterruptWithoutSleeperStays`.

`dafny verify dfyconfig.toml` checks everything.

## Model

| member | source | states |
|---|---|---|
| `PairProof.EveryRunIsReliable` | src/tcp.c:335-645 | Two endpoints over in-order channels, every run and interleaving, both directions: what tcp_receive handed out followed by what is buffered is a prefix of what tcp_send accepted; no copy overruns the buffer; SND.UNA + SND.WND never passes the peer's RCV.NXT + RCV.WND and all sent text lies inside it; the retransmission queue tiles [SND.UNA, SND.NXT) exactly; end of stream is reported only when the whole stream was handed out |
| `PairEffects.StreamIsConserved` | src/tcp.c:335-645 | In every reachable state of the pair, what tcp_receive handed out, what is buffered and the new text in the channel make up exactly what the peer's tcp_send accepted; so an empty channel means that all of it has arrived |
| `PairProof.RunKeeps` | src/tcp.c:335-971 | The link invariant (data, acknowledgements, windows, tiling, phases of both endpoints) holds after every sequence of opens, deliveries, sends, receives, closes, timer visits and interrupts |
| `PairProof.StepKeeps` | src/tcp.c:335-971 | Every single step of either endpoint keeps the link invariant |
| `PairProof.DeliverKeeps` | src/tcp.c:335-645 | Processing the segment at the head of a channel, in any state of the receiver, keeps the link invariant |
| `PairProof.CheckIsExact` | src/tcp.c:463-490 | For every genuine segment the wrapping 32-bit comparisons of the acceptability check decide as comparisons of unbounded sequence numbers |
| `PairProof.WhenChecked` | src/tcp.c:463-490 | On an in-order channel what is acceptable starts at RCV.NXT and its text fits the window; only a bare acknowledgement can be one ahead, past a FIN that found no room |
| `PairProof.RegularEffect` | src/tcp.c:526-641 | What an accepted head segment does to a synchronised PCB, as one closed form: acknowledgement, window, text, FIN and state together |
| `PairProof.DeliverLastAck` | src/tcp.c:572-579 | The acknowledgement that ends a connection in LAST-ACK keeps the invariant, whether the slot is cleared or kept for its sleepers |
| `PairProof.OpenActiveKeeps` | src/tcp.c:756-785 | An active open establishes the invariant of its direction: the SYN is queued, sent, and tiles the one sequence number in flight |
| `PairProof.SendKeeps` | src/tcp.c:887-911 | A turn of tcp_send within the unsigned capacity keeps both directions of the invariant |
| `PairProof.CapacityIsExact` | src/tcp.c:888-888 | When SND.NXT is inside the send window the unsigned subtraction is the room that is left |
| `PairProof.SenderFacts` | src/tcp.c:876-888 | In the two-endpoint system a sender's window lies inside its peer's whenever tcp_send may run, so the capacity is exact |
| `PairProof.CloseKeeps` | src/tcp.c:836-846 | tcp_close keeps the invariant: the FIN takes the sequence number after all text |
| `PairProof.ReceiveKeeps` | src/tcp.c:939-970 | tcp_receive keeps the invariant: the right window edge moves right by what was handed out |
| `PairProof.TimerKeeps` | src/tcp.c:297-319 | A retransmission repeats octets of the stream at their own sequence numbers and keeps the invariant; so does the deadline that closes the PCB |
| `PairProof.EndIsEnd` | src/tcp.c:952-959 | tcp_receive returns 0 only when everything the peer sent has been handed out |
| `PairEffects.ReceiveHandsOutTheStream` | src/tcp.c:939-970 | In every reachable state of the pair, a tcp_receive with text buffered hands out exactly the next octets of the peer's stream, as many as were asked for or are buffered |
| `PairEffects.LastAckEndsWhenTaken` | src/tcp.c:572-579 | In every run of the pair, a delivery that ends an endpoint in LAST-ACK finds that the peer has taken its whole stream and its FIN |
| `Link.DataText` | src/tcp.c:587-597 | Text that starts at RCV.NXT on an in-order channel fits the window and extends the received prefix of the stream |
| `Link.WindowsAgree` | src/tcp.c:540-550 | Whatever acknowledgements are in flight, the sender's right window edge is at most the receiver's |
| `Link.TilesCleanup` | src/tcp.c:279-295 | Dropping acknowledged entries at a segment boundary leaves a queue that tiles the new interval exactly |
| `Link.TilesCleanupIff` | src/tcp.c:279-295 | Cleanup leaves an exact tiling if and only if the acknowledgement falls on a segment boundary |
| `Link.PartialAckDropsAll` | src/tcp.c:279-295 | An acknowledgement of the first of two octets of a segment drops both from the queue |
| `Link.TileSend` | src/tcp.c:321-332 | Queueing the next segment extends the tiling to the new SND.NXT |
| `TcpRun.EveryRunKeeps` | src/tcp.c:335-971 | One slot, any peer, any interleaving of calls, segments, timer visits and interrupts, any number of octets: the invariant of the PCB and of its history holds in every reachable state |
| `TcpRun.SendVariablesInEveryRun` | src/tcp.c:279-295 | In every reachable open state whose sequence numbers have not wrapped: the queue is sorted; FIN-WAIT-1, CLOSING and LAST-ACK have their FIN queued and unacknowledged; FIN-WAIT-2 and TIME-WAIT have nothing outstanding. In every one: the state tells whether a FIN was sent, and every time-out is between 0.2 and 6.4 seconds |
| `TcpRun.UnaNeverDecreases` | src/tcp.c:540-542 | No event moves SND.UNA back while the connection lasts, even after SND.NXT has wrapped |
| `TcpRun.CleanupFiltersInEveryRun` | src/tcp.c:279-295 | In every reachable state whose sequence numbers have not wrapped, the loop that stops at the first unacknowledged entry removes exactly the entries below the acknowledgement |
| `TcpRun.FinCheckSeesFinUnacked` | src/tcp.c:617-634 | In every reachable FIN-WAIT-1 connection whose sequence numbers have not wrapped, the FIN check never sees its own FIN acknowledged: it can only choose CLOSING, and FIN-WAIT-2 has an empty queue |
| `TcpRun.OverrunExactly` | src/tcp.c:587-594 | For any PCB and any segment the copy into the buffer overruns it if and only if the segment passes the sequence, ACK and state checks and its text is longer than the free window |
| `TcpRun.OverrunIsReached` | src/tcp.c:587-594 | After a handshake that carries text, a segment at RCV.NXT whose text does not fit the rest of the buffer overruns it, for all such texts |
| `TcpRun.SendVariablesIff` | src/tcp.c:540-542 | In every run, however much is sent, ISS <= SND.UNA <= SND.NXT = ISS + 1 + octets sent + FIN holds if and only if that sum is below 2^32; SND.NXT is always that sum modulo 2^32 |
| `TcpRun.WrapIsReached` | src/tcp.c:887-909 | A run, with every send within its capacity and every octet acknowledged before the next, that ends with SND.UNA at 2^32 - 1, SND.NXT at 0 and an octet in flight, where no acknowledgement is ever taken |
| `TcpRun.TakeConserves` | src/tcp.c:965-968 | What tcp_receive hands out followed by what stays buffered is what was buffered, and its length is the minimum of the request and the buffered octets |
| `TcpRun.ReceiveMeans` | src/tcp.c:939-970 | For every PCB and size: tcp_receive returns data if and only if the state is ESTABLISHED or CLOSE-WAIT and octets are buffered, and then the first of them, as many as asked for; it sleeps, ends or refuses exactly in the remaining cases; nothing but the buffer and the window changes |
| `TcpRun.LastAckEndsIff` | src/tcp.c:572-579 | In every run, a processed segment ends a LAST-ACK connection if and only if it acknowledges everything sent and the FIN; otherwise it changes nothing |
| `TcpRun.FailedOpenFreesIff` | src/tcp.c:776-782 | An active open whose SYN cannot be sent frees its slot if and only if the condition variable could be destroyed; otherwise the slot stays closed with both endpoints |
| `TcpRun.TextConserves` | src/tcp.c:592-594 | Copying text appends it to the buffered octets and changes none of them |
| `TcpRun.IdealRunsAreExact` | src/tcp.c:592-615 | In runs of segments that start at RCV.NXT, fit, and carry no text with a FIN: octets copied in equal octets delivered followed by those buffered, RCV.NXT is IRS + 1 + octets + FINs, and the right window edge is 65535 beyond what was delivered |
| `TcpRun.RightEdgeNeverMovesLeft` | src/tcp.c:592-615 | While a connection lasts, no event of such a run moves the right window edge, counted without bound, to the left |
| `TcpRun.FinWithTextIff` | src/tcp.c:608-616 | A segment at RCV.NXT whose text fits advances RCV.NXT by its length if and only if it does not carry both FIN and text |
| `TcpRun.FinWithTextIsReached` | src/tcp.c:608-616 | After a handshake, a segment with FIN and text leaves RCV.NXT short of its end, for every such text |
| `TcpRun.InPlaceIff` | src/tcp.c:587-597 | Text that fits is appended to the buffered octets wherever it starts, and RCV.NXT advances by its length if and only if it starts at RCV.NXT |
| `TcpRun.GapIsSkipped` | src/tcp.c:587-597 | After a handshake, text that starts any number of octets late is buffered as the start of the stream |
| `TcpPackets.PacketsRunBetweenTheirEndpoints` | src/tcp.c:211-248 | In every run of a slot, each packet of an open, a segment, a send, a close or a timer visit has the local endpoint named by the open, or the SYN's destination, as its source and the foreign one as its destination; resets answer from the segment's destination to its source |
| `TcpPackets.SendRunsBetweenItsEndpoints` | src/tcp.c:863-925 | So does every segment of a tcp_send, whatever happens during its sleeps |
| `TcpPackets.ResetIff` | src/tcp.c:340-533 | For every PCB and segment, exactly which segments draw a reset in CLOSED, LISTEN, SYN-SENT and SYN-RECEIVED; it goes back to where the segment came from, with the right numbers, and the PCB stays as it is |
| `TcpPackets.ResetForResetIff` | src/tcp.c:398-406 | A reset is answered by a reset if and only if it carries a wrong acknowledgement in SYN-SENT, or an acceptable sequence number and a wrong acknowledgement in SYN-RECEIVED |
| `TcpPackets.ResetForResetIsReached` | src/tcp.c:402-406 | An active open that is answered by a reset with acknowledgement number 0 sends a reset back |
| `TcpPackets.SimultaneousOpen` | src/tcp.c:398-450 | Two active opens whose SYNs cross, for all initial sequence numbers: each endpoint sends exactly what the other hears next, and both end in ESTABLISHED, in step and with an empty retransmission queue |
| `TcpPackets.StandsAnswered` | src/tcp.c:491-557 | A segment outside the window, unless it is a reset, and one that acknowledges what was never sent change nothing and are answered by SND.NXT and RCV.NXT |
| `TcpPackets.WindowTakenIff` | src/tcp.c:536-552 | A segment's window is taken if and only if it acknowledges something new and is not older than the one taken last; otherwise window, SND.WL1 and SND.WL2 stay |
| `Retransmit.CleanupIsFilter` | src/tcp.c:279-295 | On a sorted queue the stop-at-first loop equals filtering |
| `Retransmit.CleanupSuffix` | src/tcp.c:279-295 | Cleanup keeps a suffix; everything it drops is below the acknowledgement and what it keeps starts at or above it |
| `Retransmit.EmitInMicros` | src/tcp.c:297-319 | The seconds-only deadline test and the field-wise comparison decide exactly as comparisons of microsecond counts |
| `Retransmit.AtMostFiveRetransmissions` | src/tcp.c:297-319 | For every sequence of clock readings, even one that runs backwards, a queued segment is sent again at most five times; after n times its time-out is 0.2 * 2^n seconds, never above 6.4 |
| `Time.AddUsec` | src/util.h:31-39 | Adds exactly the given microseconds and stays normalised |
| `Time.AfterIsLater` | src/tcp.c:313-313 | The field-wise comparison orders normalised instants exactly |
| `TcpSend.SendEmitsTheData` | src/tcp.c:863-925 | Whatever other threads, segments and timers do during its sleeps, and even if it fails half-way: the texts tcp_send emitted are the data in order without gap or repetition, at consecutive sequence numbers; a returned count is where they end; SND.NXT advanced by exactly that much |
| `TcpSend.SendRespectsTheMtu` | src/tcp.c:886-901 | With an MTU above 40, every emitted segment is nonempty and fits the MTU with both headers |
| `TcpSend.SendFillsTheWindow` | src/tcp.c:886-911 | Up to its first sleep tcp_send emits exactly as much of the data as the send window has room for, cut into full segments and a last one; interrupted there it returns that many octets, or -1 for none |
| `TcpSend.OthersUndisturbed` | src/tcp.c:890-899 | Nothing that happens during a sleep, other than another sender, moves SND.NXT of a PCB that may still send |
| `TcpSlot.Slot.constructor` | src/tcp.c:72-96 | A slot starts as the cleared PCB |
| `TcpSlot.Slot.RetransmitQueueAdd` | src/tcp.c:256-277 | Appends one entry with both clocks at now and the default time-out; nothing else changes |
| `TcpSlot.Slot.RetransmitQueueCleanup` | src/tcp.c:279-295 | The loop that drops acknowledged entries from the front ends with the queue that the specification of cleanup gives |
| `TcpSlot.Slot.RetransmitQueueEmit` | src/tcp.c:297-319 | Visiting one entry closes the PCB, sends the entry again and doubles its time-out, or does nothing, exactly as specified |
| `TcpSlot.Slot.Timer` | src/tcp.c:710-721 | The visit to every entry, each with its own clock reading, is the composition of the single visits, in order |
| `TcpSlot.Slot.Output` | src/tcp.c:321-333 | Queues exactly the segments that occupy sequence space and sends with the SYN at ISS, others at SND.NXT |
| `TcpSlot.Slot.PcbRelease` | src/tcp.c:160-171 | Clears every field, or leaves the slot as it is while threads wait on it |
| `TcpSlot.Slot.ArriveListen` | src/tcp.c:354-396 | SEGMENT ARRIVES in LISTEN, in place, is the specified function of the PCB and the segment |
| `TcpSlot.Slot.ArriveSynSent` | src/tcp.c:398-456 | SEGMENT ARRIVES in SYN-SENT, in place, is the specified function |
| `TcpSlot.Slot.SequenceCheck` | src/tcp.c:463-490 | The four-case test, on the fields in place, is the specified acceptability test |
| `TcpSlot.Slot.AckField` | src/tcp.c:526-579 | The ACK field stage: state, window, queue and early exits as specified |
| `TcpSlot.Slot.SegmentText` | src/tcp.c:587-604 | Copies the text at the end of the buffered octets and acknowledges, or reports that it would overrun |
| `TcpSlot.Slot.FinBit` | src/tcp.c:608-641 | The FIN stage, in place, is the specified function |
| `TcpSlot.Slot.ArriveOther` | src/tcp.c:461-645 | The stages composed with their early exits |
| `TcpSlot.Slot.SegmentArrives` | src/tcp.c:335-645 | The whole of SEGMENT ARRIVES on a selected slot, PCB and emitted segments, is the specified function |
| `TcpSlot.Slot.ConnectStart` | src/tcp.c:767-785 | Active open up to its first sleep, failure of the output included |
| `TcpSlot.Slot.ListenStart` | src/tcp.c:786-793 | Passive open up to its first sleep |
| `TcpSlot.Slot.OpenWake` | src/tcp.c:795-817 | An open returns an id exactly when it wakes in ESTABLISHED, goes on waiting in an unchanged state or SYN-RECEIVED, and otherwise releases the slot |
| `TcpSlot.Slot.Close` | src/tcp.c:825-861 | tcp_close sends a FIN in its two states and is refused in every other |
| `TcpSlot.Slot.Send` | src/tcp.c:863-925 | The loop of tcp_send with its sleeps and retries computes the specified run |
| `TcpSlot.Slot.TakeFront` | src/tcp.c:965-968 | The copy out and the overlapping move leave the buffer that the specification gives |
| `TcpSlot.Slot.Receive` | src/tcp.c:927-971 | One pass of tcp_receive: data, end of stream, wrong state, or sleep |
| `TcpQueue.RetransmitQueue.Add` | src/tcp.c:256-277 | A heap entry pushed on the linked queue appends the specified entry to its contents |
| `TcpQueue.RetransmitQueue.RemoveAcked` | src/tcp.c:279-295 | The peek-and-pop loop over the linked queue leaves the contents that the specification of cleanup gives |
| `TcpQueue.RetransmitQueue.EmitAll` | src/tcp.c:710-721 | Visiting the linked queue in order, each entry updated where it is, gives the queue, the segments and the state of the specified visits |
| `TcpTable.SelectedIsUnique` | src/tcp.c:173-193 | The selection rule (first exact match in any slot, else the last wildcard listener) has one outcome |
| `TcpTable.SelectedMeans` | src/tcp.c:173-193 | Field by field: the selected slot has the segment's destination port, its destination address or none, and its source or, listening, none; none is selected if and only if no slot is like that; a listener is never selected while a slot with the segment's source is there |
| `TcpTable.PairsStayUnique` | src/tcp.c:147-193 | In every run of the whole table from sixteen cleared slots, with wildcard passive opens, active opens of unused pairs and no segment from 0.0.0.0:0, no two slots with a foreign endpoint share their pair of endpoints |
| `TcpTable.SegmentTouchesOnlyItsSlot` | src/tcp.c:335-352 | In every run of the table a segment changes one slot at most, with its destination port and address and its source, or listening to anyone |
| `TcpTable.SynToUnusedPort` | src/tcp.c:340-351 | In every run of the table a SYN to a port that no slot has changes nothing and is answered by a reset that acknowledges the sequence number after it |
| `TcpTable.ClosedReplyMeans` | src/tcp.c:340-351 | The reset for a segment without a slot: none to a reset, the segment's acknowledgement as sequence number, or an acknowledgement of the number after the segment |
| `TcpTable.ResetFitsItsSyn` | src/tcp.c:398-415 | A peer in SYN-SENT accepts the reset for its SYN: it neither answers nor changes |
| `TcpTable.SegmentKeepsTable` | src/tcp.c:335-385 | A segment keeps the pairs unique: a listener takes a pair only when no slot matches it exactly |
| `TcpTable.ActiveOpenUniqueIff` | src/tcp.c:756-785 | An active open keeps the pairs unique if and only if no slot has its pair |
| `TcpTable.TwoOpensShareAPair` | src/tcp.c:756-785 | Two active opens of one pair, from the empty table, leave two slots with that pair |
| `TcpTable.ListenUniqueIff` | src/tcp.c:373-385 | A SYN that a listener takes keeps the pairs unique if and only if no other slot has its pair |
| `TcpTable.Table.constructor` | src/tcp.c:108-109 | Sixteen distinct cleared slots |
| `TcpTable.Table.Alloc` | src/tcp.c:147-158 | Takes the first free slot, or none exactly when none is free |
| `TcpTable.Table.Select` | src/tcp.c:173-193 | The loop meets the selection rule |
| `TcpTable.Table.SegmentArrives` | src/tcp.c:335-352 | Only the selected slot changes and emits, as specified; without one the segment is answered by a reset, never to a reset |
| `TcpTable.Table.Timer` | src/tcp.c:710-721 | Every slot in use has its whole queue visited in order and sends again what the visits say; free slots are passed over unchanged |
| `Checksum.Order16` | src/util.c:166-182 | A swapped value is stored with its most significant octet first; swapping and load/store are undone |
| `Checksum.Order32` | src/util.c:168-198 | The same for 32 bits |
| `Checksum.Cksum16` | src/util.c:204-219 | For every length and initial value the loops end with the complement of the folded 32-bit sum |
| `Checksum.NoOverflow` | src/util.c:204-213 | With a 16-bit length and a 16-bit initial value the 32-bit sum never overflows |
| `Checksum.ByteOrderIndependent` | src/util.c:204-219 | On a little-endian host the stored checksum is that of section 1 of RFC 1071, whose section 2 (B) promises this: the complement of the one's complement sum of the zero-padded words in network order |
| `Checksum.Chained` | src/udp.c:226-235 | After an even prefix, the complement of one result as initial value continues the sum over the concatenation |
| `Checksum.VerifiesIff` | src/udp.c:167-168 | A message verifies if and only if its field is the checksum computed with a zero field, or both are forms of zero and the field is all ones |
| `Checksum.VerifiesInNetworkOrder` | src/udp.c:160-168 | A message after an even prefix verifies if and only if the words of both, in network order, have the one's complement sum 65535 |
| `Wire.UdpEndToEnd` | src/udp.c:144-249 | A datagram accepted by udp_output and ip_output, framed and padded, passes every check of a unicast receiver and yields the same ports and data; it is dropped if and only if the source address given to udp_output has another one's complement sum than the interface's |
| `Wire.AnySourceIsDropped` | src/udp.c:210-249 | Every datagram from 0.0.0.0 over the interface 10.0.0.1 is accepted for output and dropped by its receiver |
| `Wire.TcpEndToEnd` | src/tcp.c:211-248 | The same for a TCP segment: sequence and acknowledgement numbers, flags, window and text |
| `Wire.SendArrivesIntact` | src/tcp.c:863-925 | Every segment of a tcp_send on a reachable connection that was opened between two unicast interface addresses is accepted by ip_output, fits the frame, and is parsed by the receiver as exactly the segment that was sent |
| `Wire.UdpUndone` | src/udp.c:144-178 | udp_input undoes udp_output, for every source address that ip_input may report |
| `Wire.TcpUndone` | src/tcp.c:647-704 | tcp_input undoes tcp_output_segment between unicast addresses |
| `Wire.IpUndone` | src/ip.c:298-364 | ip_input undoes ip_output_core and cuts off whatever follows the total length |
| `Wire.EtherUndone` | src/ether.c:68-110 | ether_input_helper returns the type and the data of ether_transmit_helper followed by zero padding |
| `Wire.EtherFormat` | src/ether.c:68-86 | The octets of a frame: destination, source, type with its high octet first, data, zeros up to 60 |
| `Wire.IpFormat` | src/ip.c:383-411 | The octets of a datagram: 0x45, total length, identification, time to live 255, protocol, addresses, data, and a header sum that verifies |
| `Wire.UdpFormat` | src/udp.c:228-235 | The octets of a UDP datagram: ports, length, data |
| `Wire.TcpFormat` | src/tcp.c:222-234 | The octets of a segment: ports, numbers with the high octet first, five words, the six control bits at their places, window, no urgent pointer, text |
| `Wire.PseudoFormat` | src/tcp.c:213-219 | The octets of the pseudo header |
| `Wire.EtherTakenIff` | src/ether.c:88-110 | A frame is taken if and only if it has a header and is addressed to the device or to everybody |
| `Wire.IpTakenIff` | src/ip.c:298-364 | ip_input hands a datagram on if and only if its version, lengths, header sum in network order, fragment bits and destination are right, and then exactly the octets between header and total length; a total length below the header length is the one wild case |
| `Wire.UdpTakenIff` | src/udp.c:144-172 | udp_input takes a datagram if and only if it has a header, its own length and, with the pseudo header, a sum that verifies in network order; ports and data are those octets |
| `Wire.TcpTakenIff` | src/tcp.c:647-701 | The same for tcp_input between unicast addresses; a data offset beyond the segment is the one wild case |
| `Wire.OnlyItsProtocol` | src/ip.c:355-363 | Only frames of type 0x0800 reach a transport protocol, and only that of their protocol octet |
| `Wire.SameSumVerifies` | src/udp.c:226-235 | A checksum filled in under one source address verifies under another if and only if their halves have the same one's complement sum |
| `Frames.EtherTransmit` | src/ether.c:68-88 | The zeroed frame buffer, filled in place, holds the header, the data and zero padding up to the minimum |
| `Frames.IpOutputCore` | src/ip.c:383-411 | The buffer filled field by field, with its checksum stored in place, holds the specified datagram |
| `Frames.UdpOutput` | src/udp.c:210-249 | The same for UDP, refused exactly when the data is too long |
| `Frames.TcpOutputSegment` | src/tcp.c:211-248 | The same for TCP; the copy would run past the buffer exactly when the text is too long for a datagram |
| `Frames.PseudoInit` | src/tcp.c:213-220 | The complement of the pseudo header's checksum, ready to continue the sum |
| `Output.LengthWithoutFrameIff` | src/ip.c:366-459 | Whatever ARP has done so far, ip_output returns the length if and only if there is a route, the source address is allowed and the datagram fits; then no frame leaves if and only if the gateway, or without one the destination, is a unicast address that no cache entry holds; a frame goes to the hardware address heard last for it, or to everybody for a broadcast |
| `Output.FirstDatagramIsLost` | src/ip.c:366-459 | With an empty cache, every datagram that fits from 10.0.0.1 to its neighbour 10.0.0.2 is reported as sent and no frame leaves |
| `Output.HeardNeighbourGetsIt` | src/ip.c:424-459 | Once the neighbour's hardware address is the one heard last and cached, a UDP datagram from the interface's own address arrives as it was sent |
| `Output.ResolvedIffHeld` | src/arp.c:208-242 | In every interleaving an address resolves if and only if an entry holds it, and then to what was heard last |
| `Output.Host.constructor` | src/ip.c:46-49 | A host without routes and with an empty cache |
| `Output.Host.Send` | src/ip.c:424-459 | ip_output on the linked route list and the cache in place returns, sends and asks exactly as specified for the route that lookup finds |
| `Output.Host.SendVia` | src/ip.c:366-381 | The broadcast address or the cached one heads the frame; without one an ARP request goes out instead |
| `Queue.Fifo.constructor` | src/util.c:82-86 | An empty queue |
| `Queue.Fifo.Push` | src/util.c:88-109 | Appends to the sequence; head, tail, links and count stay consistent |
| `Queue.Fifo.Pop` | src/util.c:111-127 | Removes and returns the first element, or nothing exactly when the queue is empty |
| `Queue.Fifo.Peek` | src/util.c:129-134 | The first element, or nothing exactly when the queue is empty |
| `Queue.Fifo.Foreach` | src/util.c:136-145 | Visits every element once, from head to tail |
| `Net.DrainIsWaiting` | src/net.c:246-265 | Draining the queues one after the other hands each type exactly what waited for it, in order |
| `Net.Stack.ProtocolRegister` | src/net.c:153-174 | On the linked list of protocols, each with its linked queue: refuses exactly the registered types, puts a new one in front; conservation per type is kept |
| `Net.Stack.InputHandler` | src/net.c:213-244 | A frame of a registered type joins the end of its linked queue only; any other frame changes nothing; per type, arrived equals handled followed by waiting |
| `Net.Registration.DrainQueue` | src/net.c:252-262 | Popping until the queue is empty hands over its contents in order |
| `Net.Stack.SoftirqHandler` | src/net.c:246-265 | Empties every linked queue; afterwards every frame that ever arrived for a type has been handled once, in order of arrival |
| `Arp.FoundIsLastHeard` | src/arp.c:208-307 | In every interleaving of arp_resolve with the two critical sections of arp_input and the timer: at most one entry per protocol address, found if and only if some entry holds it, and then with the hardware address heard last |
| `Arp.StepKeeps` | src/arp.c:97-307 | Every critical section keeps uniqueness and agreement with what was heard and when, also between the two sections of one arp_input |
| `Arp.LostOnlyWhen` | src/arp.c:110-124 | An entry is lost only to the timer 31 seconds after its timestamp, or in a full cache as one with a minimal timestamp |
| `Arp.RefreshHolds` | src/arp.c:137-170 | After an update or an insertion the sender's address is held, with its hardware address, as of the clock of that step |
| `Arp.HeldUntil` | src/arp.c:97-124 | A held address stays held if and only if the step neither evicts it nor is a timer step 31 seconds after its last update or insertion, or later |
| `Arp.HeldThroughout` | src/arp.c:97-170 | An address refreshed no earlier than some time is held through every interleaving that does not evict it, lets no timer read 31 seconds after that time or later, and updates it with no earlier clock |
| `Arp.EvictionTakesTheOldest` | src/arp.c:110-124 | Eviction takes an address that was updated or inserted longest ago |
| `Arp.InputEnds` | src/arp.c:269-285 | When none is in progress, a message is taken by an update if its address is held and only by the section without one if not; after the update, or after the second section, none is in progress |
| `Arp.ExpiredIff` | src/arp.c:292-307 | The timer drops an entry if and only if it is at least 31 seconds old |
| `Arp.MissLeavesNothing` | src/arp.c:222-231 | The state stored by a miss is FREE, with the address and the clock beside it: the address is still missed afterwards, and a full cache loses an entry for it |
| `Arp.Table.Alloc` | src/arp.c:110-124 | The first free entry, or in a full cache the first of the oldest, cleared |
| `Arp.Table.Select` | src/arp.c:126-135 | The first entry in use with the address, or none exactly when there is none |
| `Arp.Table.Resolve` | src/arp.c:208-242 | One step of the interleaving; FOUND returns the address heard last |
| `Arp.Table.InputUpdate` | src/arp.c:137-155 | The first critical section of arp_input is one step of the interleaving |
| `Arp.Table.InputInsert` | src/arp.c:157-170 | The second critical section is one step of the interleaving |
| `Arp.Table.TimerHandler` | src/arp.c:292-307 | The sweep is one step of the interleaving |
| `Udp.Unambiguous` | src/udp.c:78-125 | In every run of open, close, bind, automatic port, input and receive, on any addresses: per PCB what arrived is what was received followed by what waits, in order. If every bind and automatic port is on one address, at most one PCB matches any address and nonzero port |
| `Udp.StepKeeps` | src/udp.c:78-206 | On one address every critical section keeps distinct ports and conservation |
| `Udp.FreePortIff` | src/udp.c:112-125 | On one address a search finds nothing if and only if no open PCB has the port |
| `Udp.StepKeepsTold` | src/udp.c:112-125 | On any addresses, every step but the automatic port of a wildcard PCB keeps matches unique |
| `Udp.AtMostOneIff` | src/udp.c:112-125 | At most one open PCB matches any address and nonzero port if and only if equal ports have two different addresses, neither the wildcard |
| `Udp.AutomaticPortIff` | src/udp.c:357-381 | The automatic port of a wildcard PCB keeps matches unique if and only if no other open PCB has it, on any address |
| `Udp.TwoAddressesCollide` | src/udp.c:357-381 | A run on two addresses after which two PCBs match one address and port |
| `Udp.StepConserves` | src/udp.c:78-206 | Every critical section keeps every datagram, on any addresses |
| `Udp.CloseMeans` | src/udp.c:92-110 | A closed PCB matches nothing; its slot is free and empty, or still in use by a waiter, CLOSING with its address and datagrams; no other slot changes |
| `Udp.BindToPortZeroFails` | src/udp.c:313-340 | A PCB without a port blocks every bind to port 0, its own included |
| `Udp.SomePortIsFree` | src/udp.c:368-381 | Whatever the table holds, one of the first sixteen candidate ports is free |
| `Udp.Host.Select` | src/udp.c:112-125 | The first open PCB that matches, or none exactly when none does |
| `Udp.Host.OpenPcb` | src/udp.c:281-295 | The first free slot, or -1 exactly when none is free |
| `Udp.Host.ClosePcb` | src/udp.c:297-311 | Releases a known PCB, refuses others |
| `Udp.Host.Bind` | src/udp.c:313-340 | Succeeds if and only if the PCB is open and no open PCB matches the endpoint, for any endpoint |
| `Udp.Host.ChooseLocal` | src/udp.c:342-385 | Fails only for an unknown PCB or an unreachable destination; the port search never fails, takes the first free candidate and tries at most sixteen |
| `Udp.Host.FindPort` | src/udp.c:368-381 | The search loop stops at the first free candidate, within the first sixteen |
| `Udp.Host.Input` | src/udp.c:180-206 | The datagram joins the end of the queue of the matching PCB, if there is one, and changes nothing else |
| `Udp.Host.Receive` | src/udp.c:400-428 | In any state of the PCB hands out the oldest datagram, truncated to the buffer, or asks for a sleep exactly when the queue is empty |
| `Udp.Host.AfterSleep` | src/udp.c:405-420 | After a sleep: gives up when interrupted, finishes a pending close, or tries again |
| `Route.LongestPrefixMatch` | src/ip.c:169-182 | With contiguous masks the lookup finds nothing if and only if the address is in no network, and otherwise a network of maximal prefix length, the last added of those |
| `Route.MatchesIff` | src/ip.c:173-173 | The masked comparison in network byte order holds if and only if the prefixes agree in host order and the network has no other bits |
| `Route.MaskOrder` | src/ip.c:174-174 | Comparing masks in host order is comparing prefix lengths |
| `Route.SwapAnd` | src/ip.c:173-174 | Masking commutes with the byte order |
| `Route.InterfaceNetwork` | src/ip.c:240-261 | The route added for an interface matches exactly the addresses that share its prefix |
| `Route.Routes.Add` | src/ip.c:142-167 | Insertion at the head of the linked list: the list is the history of additions, newest first |
| `Route.Routes.SetDefaultGateway` | src/ip.c:184-196 | Adds the route that every address matches |
| `Route.Routes.Lookup` | src/ip.c:169-182 | The walk along the linked list finds the first of the matches with the largest mask |
| `Sched.WaitCount` | src/platform/linux/sched.c:17-39 | In every run wc is the number of sleeping threads |
| `Sched.QuietRun` | src/platform/linux/sched.c:17-39 | Without an interrupt every sched_sleep sleeps, and returns what its wait returned |
| `Sched.InterruptReachesAll` | src/platform/linux/sched.c:17-46 | After sched_interrupt, until the last thread it found asleep has left: every sched_sleep that starts or ends returns -1, the sleepers are exactly those that have not left, and the flag is cleared exactly by the last one |
| `Sched.InterruptWithoutSleeperStays` | src/platform/linux/sched.c:20-23 | An interrupt that finds nobody asleep is never cleared: every later sched_sleep returns -1 |
| `Sched.ClearableIff` | src/platform/linux/sched.c:20-39 | An interrupt can be cleared if and only if it finds a sleeper |
| `Sched.Context.SleepEnter` | src/platform/linux/sched.c:17-24 | sched_sleep up to the wait is one step of the protocol |
| `Sched.Context.SleepLeave` | src/platform/linux/sched.c:30-39 | sched_sleep from the wait on is one step of the protocol |
| `Sched.Context.SchedInterrupt` | src/platform/linux/sched.c:43-46 | Sets the flag and changes nothing else |

## Left out

- TAP driver, signals, threads and IRQ registration (`src/platform/linux/driver/ether_tap.c`,
  `src/platform/linux/intr.c`): foreign calls; mutexes become atomic steps, and memory allocation succeeds except in
  `Net.Stack.InputHandler`.
- Logging, dumps and address text parsing and printing: output and library calls only.
- ICMP (`src/icmp.c`): the checksum pattern of UDP with less state.
- PairProof.EveryRunIsReliable: in-order channels without loss, `ip_output` always succeeding, one connection and at most 2^30 octets each way; the code copies any in-window segment as if it started at RCV.NXT (`src/tcp.c:484-486`, `src/tcp.c:592-593`), so the stream property is false over channels that lose or reorder: `TcpRun.InPlaceIff`, `TcpRun.GapIsSkipped`.
- PairEffects.StreamIsConserved: on the channels of `PairProof.EveryRunIsReliable`; a FIN that finds no room is dropped, so it says nothing about the FIN.
- TcpRun.EveryRunKeeps: ISS is below 2^31, as `random()` gives it; a run ends at a segment that would overrun the buffer.
- TcpRun.IdealRunsAreExact: a FIN that carries text is excluded, because the code sets RCV.NXT to SEG.SEQ + 1 (`src/tcp.c:615`); `TcpRun.FinWithTextIff` is exact about it.
- TcpSend.SendEmitsTheData: no other thread sends on the PCB during a sleep, and none opens its slot again after it was freed during one; tcp_send would go on with the new connection.
- TcpSend.SendFillsTheWindow: an MTU of 40 is excluded, because every segment is then empty and the loop does not advance.
- TcpSlot.Slot.RetransmitQueueAdd: the queue of a slot is a sequence; `TcpQueue` proves that the linked queue holds the same entries under the same operations.
- TcpSlot.Slot.RetransmitQueueCleanup: the queue of a slot is a sequence, as above.
- Tiling of the queue under acknowledgements inside a segment: it fails (`Link.TilesCleanupIff`), so tiling is proved for the pair, whose acknowledgements fall on segment boundaries.
- Liveness of close and reclamation of slots: CLOSING and TIME-WAIT accept nothing (`src/tcp.c:463-469`), the TIME-WAIT timer is commented out, and RST is ignored in synchronised states (`src/tcp.c:507-509`).
- TcpTable.PairsStayUnique: passive opens with a foreign endpoint are excluded; `TcpTable.ListenUniqueIff` covers their SYN.
- TcpSlot.Slot.Send: a sleep is a list of events of the other threads, and the call takes as many turns as it is given; that it eventually returns is not stated.
- The effects of sched_wakeup: a sleeper may wake at any time, so nothing depends on who is woken.
- Headers are read as values in `Wire`, and what lies behind a buffer when a length is `Wild` is not captured.
- Wire.UdpEndToEnd: unicast receivers only; the interface's broadcast address uses a logical not (`src/ip.c:234`) and is an argument.
- ARP messages: the header checks of arp_input and the requests and replies it sends; the cache is modelled.
- Event subscription (`src/net.c:268-292`) and the handlers that interrupt every open PCB: a loop over `Sched.Context.SchedInterrupt`.
- The unused fields `up`, `mtu` and `mss` of a TCP PCB, and urgent data.
