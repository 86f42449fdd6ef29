/**
 One TCP protocol control block as a value, and every critical section of tcp.c as a function on it.

 A critical section is what runs between taking the mutex (or waking from a sleep) and giving it up again.
 Results of foreign calls are arguments: the clock (`now`), `random()` (`iss`), whether `ip_output` succeeded
 (`ok`) and whether the condition variable could be destroyed (`destroyed`). Arithmetic wraps as in the source.
 */
module Tcp {
  import opened Base
  import opened Time

  const BUF_SIZE: int := 65535
  const DEFAULT_RTO: int := 200_000
  const RETRANSMIT_DEADLINE: int := 12

  datatype State =
    | Free | Closed | Listen | SynSent | SynReceived | Established
    | FinWait1 | FinWait2 | Closing | TimeWait | CloseWait | LastAck

  datatype Flags = Flags(fin: bool, syn: bool, rst: bool, psh: bool, ack: bool, urg: bool)

  const ACK := Flags(false, false, false, false, true, false)
  const SYN := Flags(false, true, false, false, false, false)
  const SYN_ACK := Flags(false, true, false, false, true, false)
  const FIN_ACK := Flags(true, false, false, false, true, false)
  const PSH_ACK := Flags(false, false, false, true, true, false)
  const RST := Flags(false, false, true, false, false, false)
  const RST_ACK := Flags(false, false, true, false, true, false)

  /** A segment after header parsing: what `tcp_segment_info`, the flags and the text carry. */
  datatype Segment = Segment(seqno: u32, ack: u32, flags: Flags, wnd: u16, text: seq<byte>)

  /** A segment handed to `ip_output`. */
  datatype Packet = Packet(src: Endpoint, dst: Endpoint, seg: Segment)

  /** An entry of the retransmission queue. */
  datatype Entry = Entry(first: Timeval, last: Timeval, rto: nat, seqno: u32, flags: Flags, text: seq<byte>)

  type Buffer = b: seq<byte> | |b| == 65535 witness seq(65535, i => 0)

  function ZeroBuffer(): Buffer { seq(65535, i => 0) }

  datatype Pcb = Pcb(
    state: State, local: Endpoint, foreign: Endpoint,
    sndNxt: u32, sndUna: u32, sndWnd: u16, wl1: u32, wl2: u32, iss: u32,
    rcvNxt: u32, rcvWnd: u16, irs: u32,
    buf: Buffer, queue: seq<Entry>)

  /** A slot as `memset` leaves it. */
  function ZeroPcb(): Pcb {
    Pcb(Free, ANY_ENDPOINT, ANY_ENDPOINT, 0, 0, 0, 0, 0, 0, 0, 0, 0, ZeroBuffer(), [])
  }

  /** The octets waiting in the receive buffer. */
  function Buffered(p: Pcb): seq<byte> { p.buf[..BUF_SIZE - p.rcvWnd] }

  /** SEG.LEN: SYN and FIN each take one sequence number; the count is kept in 16 bits. */
  function SegLen(s: Segment): u16 {
    U16(|s.text| + (if s.flags.syn then 1 else 0) + (if s.flags.fin then 1 else 0))
  }

  // ---- Output and the retransmission queue ----

  function OutSeq(p: Pcb, flags: Flags): u32 { if flags.syn then p.iss else p.sndNxt }

  /** The segment `tcp_output` builds from the PCB's present fields. */
  function Emit(p: Pcb, flags: Flags, text: seq<byte>): Packet {
    Packet(p.local, p.foreign, Segment(OutSeq(p, flags), p.rcvNxt, flags, p.rcvWnd, text))
  }

  function NewEntry(p: Pcb, flags: Flags, text: seq<byte>, now: Timeval): Entry {
    Entry(now, now, DEFAULT_RTO, OutSeq(p, flags), flags, text)
  }

  /** `tcp_output` keeps a copy of everything that takes sequence space. */
  function Enqueue(p: Pcb, flags: Flags, text: seq<byte>, now: Timeval): Pcb {
    if flags.syn || flags.fin || text != [] then p.(queue := p.queue + [NewEntry(p, flags, text, now)]) else p
  }

  /** tcp_retransmit_queue_cleanup: pops entries from the front while they start below `una`. */
  function Cleanup(q: seq<Entry>, una: u32): seq<Entry> {
    if q == [] || q[0].seqno >= una then q else Cleanup(q[1..], una)
  }

  datatype EmitResult = Expired | Again(entry: Entry) | Waiting

  /** tcp_retransmit_queue_emit on one entry: past the deadline, due again, or neither. */
  function EmitEntry(e: Entry, now: Timeval): EmitResult
    requires Normal(e.first) && Normal(e.last) && Normal(now)
  {
    if Sub(now, e.first).sec >= RETRANSMIT_DEADLINE then Expired
    else if After(now, AddUsec(e.last, e.rto)) then Again(e.(last := now, rto := e.rto * 2))
    else Waiting
  }

  datatype Step = Step(pcb: Pcb, sent: seq<Packet>)

  predicate ClocksNormal(q: seq<Entry>) {
    forall i :: 0 <= i < |q| ==> Normal(q[i].first) && Normal(q[i].last)
  }

  /** The timer's visit to entry `i` of the queue. */
  function Tick(p: Pcb, i: nat, now: Timeval): Step
    requires i < |p.queue| && ClocksNormal(p.queue) && Normal(now)
  {
    var e := p.queue[i];
    match EmitEntry(e, now)
    case Expired => Step(p.(state := Closed), [])
    case Waiting => Step(p, [])
    case Again(e') =>
      Step(p.(queue := p.queue[i := e']),
           [Packet(p.local, p.foreign, Segment(e.seqno, p.rcvNxt, e.flags, p.rcvWnd, e.text))])
  }

  /** tcp_pcb_release: clears the slot unless its condition variable is still in use. */
  function Release(p: Pcb, destroyed: bool): Pcb { if destroyed then ZeroPcb() else p }

  // ---- SEGMENT ARRIVES ----

  datatype Arrival =
    | Done(pcb: Pcb, sent: seq<Packet>)
    | Overrun  // the text would be copied past the end of the receive buffer

  function RstFor(s: Segment, local: Endpoint, foreign: Endpoint): Packet {
    Packet(local, foreign, Segment(s.ack, 0, RST, 0, []))
  }

  /** No PCB, or a closed one: answer with a reset, never to a reset. */
  function ClosedReply(s: Segment, local: Endpoint, foreign: Endpoint): seq<Packet> {
    if s.flags.rst then []
    else if !s.flags.ack then
      [Packet(local, foreign, Segment(0, U32(s.seqno + SegLen(s)), RST_ACK, 0, []))]
    else [RstFor(s, local, foreign)]
  }

  function ArrivesListen(p: Pcb, s: Segment, local: Endpoint, foreign: Endpoint, iss: u32, now: Timeval): Arrival {
    if s.flags.rst then Done(p, [])
    else if s.flags.ack then Done(p, [RstFor(s, local, foreign)])
    else if s.flags.syn then
      var p1 := p.(local := local, foreign := foreign, rcvWnd := BUF_SIZE, rcvNxt := U32(s.seqno + 1), irs := s.seqno,
                   iss := iss);
      var p2 := Enqueue(p1, SYN_ACK, [], now);
      Done(p2.(sndNxt := U32(iss + 1), sndUna := iss, state := SynReceived), [Emit(p1, SYN_ACK, [])])
    else Done(p, [])
  }

  function ArrivesSynSent(p: Pcb, s: Segment, local: Endpoint, foreign: Endpoint, now: Timeval): Arrival {
    if s.flags.ack && (s.ack <= p.iss || s.ack > p.sndNxt) then Done(p, [RstFor(s, local, foreign)])
    else if s.flags.syn then
      var acceptable := s.flags.ack && p.sndUna <= s.ack <= p.sndNxt;
      var p1 := p.(rcvNxt := U32(s.seqno + 1), irs := s.seqno);
      var p2 := if acceptable then p1.(sndUna := s.ack, queue := Cleanup(p1.queue, s.ack)) else p1;
      if p2.sndUna > p2.iss then
        Done(p2.(state := Established, sndWnd := s.wnd, wl1 := s.seqno, wl2 := s.ack), [Emit(p2, ACK, [])])
      else
        Done(Enqueue(p2.(state := SynReceived), SYN_ACK, [], now), [Emit(p2, SYN_ACK, [])])
    else Done(p, [])
  }

  predicate InWindow(p: Pcb, x: u32) { p.rcvNxt <= x < U32(p.rcvNxt + p.rcvWnd) }

  /** The sequence number check. CLOSING and TIME-WAIT accept nothing. */
  predicate Acceptable(p: Pcb, s: Segment) {
    && (p.state.SynReceived? || p.state.Established? || p.state.FinWait1? || p.state.FinWait2? || p.state.CloseWait?
        || p.state.LastAck?)
    && if SegLen(s) == 0 then
         if p.rcvWnd == 0 then s.seqno == p.rcvNxt else InWindow(p, s.seqno)
       else
         p.rcvWnd != 0 && (InWindow(p, s.seqno) || InWindow(p, U32(s.seqno + SegLen(s) - 1)))
  }

  /** Whether the segment is processed past the sequence number and ACK bit checks. */
  predicate Processed(p: Pcb, s: Segment) { Acceptable(p, s) && s.flags.ack }

  predicate AcksNew(p: Pcb, s: Segment) { p.sndUna < s.ack <= p.sndNxt }

  /** An acknowledgement of something new: advance SND.UNA, drop what it covers, perhaps take the window. */
  function AckUpdate(p: Pcb, s: Segment): Pcb {
    if AcksNew(p, s) then
      var p1 := p.(sndUna := s.ack, queue := Cleanup(p.queue, s.ack));
      if p.wl1 < s.seqno || (p.wl1 == s.seqno && p.wl2 <= s.ack) then
        p1.(sndWnd := s.wnd, wl1 := s.seqno, wl2 := s.ack)
      else p1
    else p
  }

  datatype AckResult = Stop(pcb: Pcb, sent: seq<Packet>) | Go(pcb: Pcb)

  function AckPhase(p: Pcb, s: Segment, local: Endpoint, foreign: Endpoint, destroyed: bool): AckResult {
    match p.state
    case SynReceived =>
      if p.sndUna <= s.ack <= p.sndNxt then AckOpen(p.(state := Established), s)
      else Stop(p, [RstFor(s, local, foreign)])
    case Established => AckOpen(p, s)
    case FinWait1 => AckOpen(p, s)
    case FinWait2 => AckOpen(p, s)
    case CloseWait => AckOpen(p, s)
    case LastAck =>
      if s.ack == p.sndNxt then Stop(Release(p.(state := Closed), destroyed), []) else Stop(p, [])
    case _ => Go(p)
  }

  /** The ACK field in the states that still take acknowledgements. */
  function AckOpen(p: Pcb, s: Segment): AckResult {
    if !AcksNew(p, s) && s.ack >= p.sndUna && s.ack > p.sndNxt then Stop(p, [Emit(p, ACK, [])])
    else
      var p1 := AckUpdate(p, s);
      Go(if p1.state == FinWait1 && s.ack == p1.sndNxt then p1.(state := FinWait2) else p1)
  }

  /** memcpy of `text` into the buffer at `at`. */
  function Splice(buf: Buffer, at: nat, text: seq<byte>): Buffer
    requires at + |text| <= BUF_SIZE
  {
    buf[..at] + text + buf[at + |text|..]
  }

  predicate TakesText(p: Pcb, s: Segment) {
    (p.state.Established? || p.state.FinWait1? || p.state.FinWait2?) && s.text != []
  }

  function TextPhase(p: Pcb, s: Segment): Arrival {
    if !TakesText(p, s) then Done(p, [])
    else if |s.text| > p.rcvWnd then Overrun
    else
      var p1 := p.(buf := Splice(p.buf, BUF_SIZE - p.rcvWnd, s.text),
                   rcvNxt := U32(s.seqno + SegLen(s)),
                   rcvWnd := p.rcvWnd - |s.text|);
      Done(p1, [Emit(p1, ACK, [])])
  }

  function FinState(p: Pcb, s: Segment): State {
    match p.state
    case SynReceived => CloseWait
    case Established => CloseWait
    case FinWait1 => if s.ack == p.sndNxt then TimeWait else Closing
    case FinWait2 => TimeWait
    case st => st
  }

  function FinPhase(p: Pcb, s: Segment): Step {
    if !s.flags.fin || (p.state.Closed? || p.state.Listen?) then Step(p, [])
    else
      var p1 := p.(rcvNxt := U32(s.seqno + 1));
      Step(p1.(state := FinState(p1, s)), [Emit(p1, ACK, [])])
  }

  function ArrivesOther(p: Pcb, s: Segment, local: Endpoint, foreign: Endpoint, destroyed: bool): Arrival {
    if !Acceptable(p, s) then Done(p, if s.flags.rst then [] else [Emit(p, ACK, [])])
    else if !s.flags.ack then Done(p, [])
    else
      match AckPhase(p, s, local, foreign, destroyed)
      case Stop(p1, sent) => Done(p1, sent)
      case Go(p1) =>
        match TextPhase(p1, s)
        case Overrun => Overrun
        case Done(p2, sent) =>
          var f := FinPhase(p2, s);
          Done(f.pcb, sent + f.sent)
  }

  /** tcp_segment_arrives once `tcp_pcb_select` has chosen `p`. */
  function Arrives(p: Pcb, s: Segment, local: Endpoint, foreign: Endpoint, iss: u32, now: Timeval, destroyed: bool)
    : Arrival
  {
    match p.state
    case Closed => Done(p, ClosedReply(s, local, foreign))
    case Listen => ArrivesListen(p, s, local, foreign, iss, now)
    case SynSent => ArrivesSynSent(p, s, local, foreign, now)
    case _ => ArrivesOther(p, s, local, foreign, destroyed)
  }

  // ---- User calls ----

  /** tcp_open_rfc793, active: the SYN is queued and sent before SND.UNA and SND.NXT are set. */
  function OpenActive(p: Pcb, local: Endpoint, foreign: Endpoint, iss: u32, now: Timeval, ok: bool, destroyed: bool)
    : Step
  {
    var p1 := p.(state := Closed, local := local, foreign := foreign, rcvWnd := BUF_SIZE, iss := iss);
    var p2 := Enqueue(p1, SYN, [], now);
    var sent := [Emit(p1, SYN, [])];
    if !ok then Step(Release(p2, destroyed), sent)
    else Step(p2.(sndUna := iss, sndNxt := U32(iss + 1), state := SynSent), sent)
  }

  function OpenPassive(p: Pcb, local: Endpoint, foreign: Option<Endpoint>): Pcb {
    var p1 := p.(local := local, state := Listen);
    if foreign.Some? then p1.(foreign := foreign.value) else p1
  }

  /** The end of an open that failed or was interrupted. */
  function Abort(p: Pcb, destroyed: bool): Pcb { Release(p.(state := Closed), destroyed) }

  /** The states after our FIN was sent. */
  predicate SentFin(st: State) { st.FinWait1? || st.FinWait2? || st.Closing? || st.TimeWait? || st.LastAck? }

  predicate CanSend(p: Pcb) { (p.state.Established? || p.state.CloseWait?) }

  /** `cap` of tcp_send: the subtraction is unsigned. */
  function Capacity(p: Pcb): u32 { U32(p.sndWnd - U32(p.sndNxt - p.sndUna)) }

  /** One turn of tcp_send's loop: emit `text` and advance SND.NXT. */
  function SendText(p: Pcb, text: seq<byte>, now: Timeval, ok: bool, destroyed: bool): Step {
    var p1 := Enqueue(p, PSH_ACK, text, now);
    var sent := [Emit(p, PSH_ACK, text)];
    if !ok then Step(Abort(p1, destroyed), sent)
    else Step(p1.(sndNxt := U32(p.sndNxt + |text|)), sent)
  }

  /** tcp_close in the two states that allow it. */
  function CloseCall(p: Pcb, now: Timeval): Step
    requires CanSend(p)
  {
    var p1 := Enqueue(p, FIN_ACK, [], now);
    Step(p1.(sndNxt := U32(p.sndNxt + 1), state := if p.state == Established then FinWait1 else LastAck),
         [Emit(p, FIN_ACK, [])])
  }

  datatype Receipt = Got(pcb: Pcb, data: seq<byte>) | MustSleep | EndOfStream | WrongState

  /** One pass of tcp_receive: at most `size` octets leave the front of the buffer and the window grows by as many. */
  function ReceiveCall(p: Pcb, size: nat): Receipt {
    var remain := BUF_SIZE - p.rcvWnd;
    match p.state
    case Established => if remain == 0 then MustSleep else Take(p, size)
    case CloseWait => if remain == 0 then EndOfStream else Take(p, size)
    case _ => WrongState
  }

  function Take(p: Pcb, size: nat): Receipt {
    var remain := BUF_SIZE - p.rcvWnd;
    var len := Min(size, remain);
    Got(p.(buf := p.buf[len..remain] + p.buf[remain - len..], rcvWnd := p.rcvWnd + len), p.buf[..len])
  }
}
