/**
 Every run of one PCB slot, whatever the peer sends and however the calls of the local threads interleave.

 A run is a sequence of critical sections. `Conn` adds to the PCB what its user can see: the octets accepted by
 tcp_send, whether tcp_close sent a FIN, the octets copied into the receive buffer, those handed to tcp_receive, and
 the number of FINs taken from the peer, and the endpoints that the open, or the SYN that found a listener, named.
 Nothing bounds the number of octets sent; `iss` comes from `random()` and is below 2^31. The peer's sequence numbers
 are arbitrary 32-bit values.
 */
module TcpRun {
  import opened Base
  import opened Time
  import opened Tcp
  import opened Retransmit

  datatype Conn = Conn(pcb: Pcb, sent: nat, fin: bool, copied: seq<byte>, delivered: seq<byte>, fins: nat,
                       here: Endpoint, there: Endpoint)

  datatype Event =
    | DoOpenActive(local: Endpoint, foreign: Endpoint, iss: u32, now: Timeval, ok: bool, destroyed: bool)
    | DoOpenPassive(local: Endpoint, remote: Option<Endpoint>)
    | DoSegment(seg: Segment, local: Endpoint, foreign: Endpoint, iss: u32, now: Timeval, destroyed: bool)
    | DoSend(text: seq<byte>, now: Timeval, ok: bool, destroyed: bool)
    | DoReceive(size: nat)
    | DoClose(now: Timeval)
    | DoTick(index: nat, now: Timeval)
    | DoAbort(destroyed: bool)

  function Fresh(): Conn { Conn(ZeroPcb(), 0, false, [], [], 0, ANY_ENDPOINT, ANY_ENDPOINT) }

  /** Which critical sections can run next. A segment whose text would overrun the buffer ends the run. */
  predicate Enabled(c: Conn, ev: Event) {
    match ev
    case DoOpenActive(_, _, iss, now, _, _) => c.pcb.state == Free && iss < TWO31 && Normal(now)
    case DoOpenPassive(_, _) => c.pcb.state == Free
    case DoSegment(seg, local, foreign, iss, now, destroyed) =>
      && iss < TWO31 && Normal(now)
      && Arrives(c.pcb, seg, local, foreign, iss, now, destroyed).Done?
    case DoSend(text, now, _, _) => CanSend(c.pcb) && Normal(now)
    case DoReceive(_) => true
    case DoClose(now) => CanSend(c.pcb) && Normal(now)
    case DoTick(i, now) => i < |c.pcb.queue| && ClocksNormal(c.pcb.queue) && Normal(now)
    case DoAbort(_) => true
  }

  /** The octets a segment adds to the receive buffer. */
  function TextTaken(p: Pcb, s: Segment, local: Endpoint, foreign: Endpoint, destroyed: bool): seq<byte> {
    if (p.state.Closed? || p.state.Listen? || p.state.SynSent?) || !Processed(p, s) then []
    else
      match AckPhase(p, s, local, foreign, destroyed)
      case Stop(_, _) => []
      case Go(p1) => if TakesText(p1, s) then s.text else []
  }

  /** Whether a segment's FIN is taken. */
  predicate FinTaken(p: Pcb, s: Segment, local: Endpoint, foreign: Endpoint, destroyed: bool) {
    && !p.state.Closed? && !p.state.Listen? && !p.state.SynSent? && Processed(p, s) && s.flags.fin
    && AckPhase(p, s, local, foreign, destroyed).Go?
  }

  /** A SYN for a listener gives the connection its endpoints. */
  predicate OpensListener(c: Conn, ev: Event)
    requires ev.DoSegment?
  {
    c.pcb.state.Listen? && ev.seg.flags.syn && !ev.seg.flags.ack && !ev.seg.flags.rst
  }

  /** The history after a segment. */
  function AfterSegment(c: Conn, ev: Event): Conn
    requires ev.DoSegment? && Enabled(c, ev)
  {
    c.(pcb := Arrives(c.pcb, ev.seg, ev.local, ev.foreign, ev.iss, ev.now, ev.destroyed).pcb,
       copied := c.copied + TextTaken(c.pcb, ev.seg, ev.local, ev.foreign, ev.destroyed),
       fins := c.fins + (if FinTaken(c.pcb, ev.seg, ev.local, ev.foreign, ev.destroyed) then 1 else 0),
       here := if OpensListener(c, ev) then ev.local else c.here,
       there := if OpensListener(c, ev) then ev.foreign else c.there)
  }

  /** A cleared slot forgets the connection. */
  function Keep(c: Conn): Conn { if c.pcb.state == Free then Fresh() else c }

  function Apply(c: Conn, ev: Event): Conn
    requires Enabled(c, ev)
  {
    match ev
    case DoOpenActive(local, foreign, iss, now, ok, destroyed) =>
      Keep(Fresh().(pcb := OpenActive(c.pcb, local, foreign, iss, now, ok, destroyed).pcb, here := local,
                    there := foreign))
    case DoOpenPassive(local, remote) =>
      Fresh().(pcb := OpenPassive(c.pcb, local, remote), here := local,
               there := if remote.Some? then remote.value else ANY_ENDPOINT)
    case DoSegment(_, _, _, _, _, _) => Keep(AfterSegment(c, ev))
    case DoSend(text, now, ok, destroyed) =>
      Keep(c.(pcb := SendText(c.pcb, text, now, ok, destroyed).pcb, sent := c.sent + |text|))
    case DoReceive(size) =>
      (match ReceiveCall(c.pcb, size)
       case Got(p, data) => c.(pcb := p, delivered := c.delivered + data)
       case _ => c)
    case DoClose(now) => c.(pcb := CloseCall(c.pcb, now).pcb, fin := true)
    case DoTick(i, now) => c.(pcb := Tick(c.pcb, i, now).pcb)
    case DoAbort(destroyed) => Keep(c.(pcb := Abort(c.pcb, destroyed)))
  }

  ghost predicate IsRun(c: Conn, evs: seq<Event>)
    decreases |evs|
  {
    evs != [] ==> Enabled(c, evs[0]) && IsRun(Apply(c, evs[0]), evs[1..])
  }

  function Run(c: Conn, evs: seq<Event>): Conn
    requires IsRun(c, evs)
    decreases |evs|
  {
    if evs == [] then c else Run(Apply(c, evs[0]), evs[1..])
  }

  // ---- The invariant ----

  predicate Open(st: State) { !st.Free? && !st.Closed? && !st.Listen? }

  /** How far our sequence space reaches, counted without bound. */
  function Reach(c: Conn): nat { c.pcb.iss + 1 + c.sent + (if c.fin then 1 else 0) }

  /** Our sequence numbers have not wrapped. */
  predicate Unwrapped(c: Conn) { Reach(c) < TWO32 }

  /** Sequence variables and queue of an open connection. */
  ghost predicate SendVars(c: Conn) {
    var p := c.pcb;
    && p.iss < TWO31
    && p.sndNxt == Reach(c)
    && p.iss <= p.sndUna <= p.sndNxt
    && Sorted(p.queue) && Within(p.queue, p.sndUna, p.sndNxt)
  }

  ghost predicate FinQueued(p: Pcb) {
    && p.queue != []
    && var e := p.queue[|p.queue| - 1];
       e.flags == FIN_ACK && e.text == [] && e.seqno == p.sndNxt - 1
  }

  /** The state tells whether our FIN was sent and whether it was acknowledged. */
  ghost predicate FinMatchesState(c: Conn) {
    var p := c.pcb;
    match p.state
    case FinWait1 => c.fin && p.sndUna < p.sndNxt && FinQueued(p)
    case Closing => c.fin && p.sndUna < p.sndNxt && FinQueued(p)
    case LastAck => c.fin && p.sndUna < p.sndNxt && FinQueued(p)
    case FinWait2 => c.fin && p.sndUna == p.sndNxt && p.queue == []
    case TimeWait => c.fin && p.sndUna == p.sndNxt && p.queue == []
    case SynSent => !c.fin && c.sent == 0 && p.sndUna == p.iss
    case SynReceived => !c.fin && c.sent == 0 && p.sndUna == p.iss
    case _ => !c.fin
  }

  /** Sent again at most five times, with the time-out that goes with the count. */
  ghost predicate BackedOff(e: Entry) { exists n: nat :: n <= 5 && Resent(e, n) }

  ghost predicate AllBackedOff(q: seq<Entry>) { forall e :: e in q ==> BackedOff(e) }

  /** What holds however much was sent. */
  ghost predicate Always(c: Conn) {
    && c.pcb.iss < TWO31 && c.pcb.sndNxt == U32(Reach(c))
    && (c.fin <==> SentFin(c.pcb.state))
    && (c.pcb.state.SynSent? || c.pcb.state.SynReceived? ==> c.sent == 0)
    && c.copied == c.delivered + Buffered(c.pcb)
    && (c.pcb.state.SynSent? ==> c.copied == [] && c.fins == 0)
  }

  /** What holds while sequence numbers do not wrap. */
  ghost predicate OpenInv(c: Conn) { Always(c) && SendVars(c) && FinMatchesState(c) }

  /** Nothing was sent or received yet. */
  predicate Untouched(c: Conn) { c == Fresh().(pcb := c.pcb, here := c.here, there := c.there) }

  ghost predicate Core(c: Conn) {
    && (c.pcb.state.Free? ==> c == Fresh())
    && (c.pcb.state.Listen? ==> c.pcb.queue == [] && Untouched(c))
    && (Open(c.pcb.state) ==> Always(c) && (Unwrapped(c) ==> OpenInv(c)))
  }

  ghost predicate Inv(c: Conn) { AllBackedOff(c.pcb.queue) && Core(c) }

  // ---- Preservation, one critical section at a time ----

  lemma EnqueueBackedOff(p: Pcb, flags: Flags, text: seq<byte>, now: Timeval)
    requires AllBackedOff(p.queue) && Normal(now)
    ensures AllBackedOff(Enqueue(p, flags, text, now).queue)
  {
    assert Resent(NewEntry(p, flags, text, now), 0);
  }

  lemma CleanupBackedOff(q: seq<Entry>, una: u32)
    requires AllBackedOff(q)
    ensures AllBackedOff(Cleanup(q, una))
  {
  }

  lemma TickBackedOff(p: Pcb, i: nat, now: Timeval)
    requires AllBackedOff(p.queue) && i < |p.queue| && ClocksNormal(p.queue) && Normal(now)
    ensures AllBackedOff(Tick(p, i, now).pcb.queue)
  {
    var e := p.queue[i];
    assert BackedOff(e);
    var n: nat :| n <= 5 && Resent(e, n);
    if EmitEntry(e, now).Again? {
      AgainCounts(e, now, n);
      assert BackedOff(EmitEntry(e, now).entry);
    }
  }

  /** In the synchronised states a segment that is not processed leaves the PCB as it was. */
  lemma NotProcessed(p: Pcb, ev: Event)
    requires ev.DoSegment? && (!p.state.Listen? && !p.state.SynSent?)
    requires p.state == Closed || !Processed(p, ev.seg)
    ensures var r := Arrives(p, ev.seg, ev.local, ev.foreign, ev.iss, ev.now, ev.destroyed);
            r.Done? && r.pcb == p
  {
  }

  /** Otherwise the ACK field, the text and the FIN are taken in that order. */
  lemma InOrder(p: Pcb, ev: Event)
    requires ev.DoSegment? && (!p.state.Closed? && !p.state.Listen? && !p.state.SynSent?) && Processed(p, ev.seg)
    ensures var r := Arrives(p, ev.seg, ev.local, ev.foreign, ev.iss, ev.now, ev.destroyed);
            match AckPhase(p, ev.seg, ev.local, ev.foreign, ev.destroyed)
            case Stop(p1, sent) => r == Done(p1, sent)
            case Go(p1) =>
              match TextPhase(p1, ev.seg)
              case Overrun => r == Overrun
              case Done(p2, sent) => r == Done(FinPhase(p2, ev.seg).pcb, sent + FinPhase(p2, ev.seg).sent)
  {
  }

  lemma AckPhaseQueue(p: Pcb, s: Segment, local: Endpoint, foreign: Endpoint, destroyed: bool)
    ensures var q := AckPhase(p, s, local, foreign, destroyed).pcb.queue;
            q == p.queue || q == Cleanup(p.queue, s.ack) || q == []
  {
  }

  lemma TextAndFinQueue(p: Pcb, s: Segment)
    ensures TextPhase(p, s).Done? ==>
              TextPhase(p, s).pcb.queue == p.queue && FinPhase(TextPhase(p, s).pcb, s).pcb.queue == p.queue
  {
  }

  /** Whatever a segment does to the queue: entries are dropped, or a new SYN is added. */
  lemma ArrivesBackedOff(p: Pcb, ev: Event)
    requires AllBackedOff(p.queue) && ev.DoSegment? && Normal(ev.now)
    requires Arrives(p, ev.seg, ev.local, ev.foreign, ev.iss, ev.now, ev.destroyed).Done?
    ensures AllBackedOff(Arrives(p, ev.seg, ev.local, ev.foreign, ev.iss, ev.now, ev.destroyed).pcb.queue)
  {
    var s := ev.seg;
    CleanupBackedOff(p.queue, s.ack);
    if p.state == Listen {
      EnqueueBackedOff(p.(local := ev.local, foreign := ev.foreign, rcvWnd := BUF_SIZE,
                          rcvNxt := U32(s.seqno + 1), irs := s.seqno, iss := ev.iss), SYN_ACK, [], ev.now);
    } else if p.state == SynSent {
      var p1 := p.(rcvNxt := U32(s.seqno + 1), irs := s.seqno);
      var p2 := if s.flags.ack then p1.(sndUna := s.ack, queue := Cleanup(p1.queue, s.ack)) else p1;
      EnqueueBackedOff(p2.(state := SynReceived), SYN_ACK, [], ev.now);
    } else if p.state == Closed || !Processed(p, s) {
      NotProcessed(p, ev);
    } else {
      InOrder(p, ev);
      AckPhaseQueue(p, s, ev.local, ev.foreign, ev.destroyed);
      TextAndFinQueue(AckPhase(p, s, ev.local, ev.foreign, ev.destroyed).pcb, s);
    }
  }

  lemma EventBackedOff(c: Conn, ev: Event)
    requires Inv(c) && Enabled(c, ev)
    ensures AllBackedOff(Apply(c, ev).pcb.queue)
  {
    match ev
    case DoOpenActive(local, foreign, iss, now, _, _) =>
      var p := c.pcb.(state := Closed, local := local, foreign := foreign, rcvWnd := BUF_SIZE, iss := iss);
      EnqueueBackedOff(p, SYN, [], now);
    case DoOpenPassive(_, _) =>
    case DoAbort(_) =>
    case DoSend(text, now, _, _) => EnqueueBackedOff(c.pcb, PSH_ACK, text, now);
    case DoClose(now) => EnqueueBackedOff(c.pcb, FIN_ACK, [], now);
    case DoReceive(_) =>
    case DoTick(i, now) => TickBackedOff(c.pcb, i, now);
    case DoSegment(_, _, _, _, _, _) => ArrivesBackedOff(c.pcb, ev);
  }

  lemma OpenKeeps(c: Conn, ev: Event)
    requires Core(c) && Enabled(c, ev)
    requires ev.DoOpenActive? || ev.DoOpenPassive? || ev.DoAbort?
    ensures Core(Apply(c, ev))
  {
  }

  /** A new entry starts at SND.NXT, so it goes to the end of a sorted queue. */
  lemma EnqueueOrdered(p: Pcb, flags: Flags, text: seq<byte>, now: Timeval, lo: int)
    requires Sorted(p.queue) && Within(p.queue, lo, p.sndNxt) && lo <= p.sndNxt && !flags.syn
    ensures var q := Enqueue(p, flags, text, now).queue;
            && Sorted(q) && Within(q, lo, p.sndNxt + 1)
            && (flags.fin || text != [] ==> q == p.queue + [NewEntry(p, flags, text, now)])
            && (!flags.fin && text == [] ==> q == p.queue)
  {
  }

  lemma SendKeeps(c: Conn, text: seq<byte>, now: Timeval, destroyed: bool)
    requires OpenInv(c) && CanSend(c.pcb) && Reach(c) + |text| < TWO32
    ensures OpenInv(c.(pcb := SendText(c.pcb, text, now, true, destroyed).pcb, sent := c.sent + |text|))
  {
    EnqueueOrdered(c.pcb, PSH_ACK, text, now, c.pcb.sndUna);
    assert U32(c.pcb.sndNxt + |text|) == c.pcb.sndNxt + |text|;
  }

  lemma CloseKeeps(c: Conn, now: Timeval)
    requires OpenInv(c) && CanSend(c.pcb) && Reach(c) + 1 < TWO32
    ensures OpenInv(c.(pcb := CloseCall(c.pcb, now).pcb, fin := true))
  {
  }

  lemma ReceiveKeeps(c: Conn, size: nat)
    requires OpenInv(c)
    ensures var r := Take(c.pcb, size);
            OpenInv(c.(pcb := r.pcb, delivered := c.delivered + r.data))
  {
  }

  /** tcp_receive takes octets from the front of the buffer and leaves the others in order. */
  lemma TakeConserves(p: Pcb, size: nat)
    ensures var r := Take(p, size);
            r.data + Buffered(r.pcb) == Buffered(p) && |r.data| == Min(size, BUF_SIZE - p.rcvWnd)
  {
  }

  /** What a pass of tcp_receive does, from the state and the buffered octets alone. */
  lemma ReceiveMeans(p: Pcb, size: nat)
    ensures var r := ReceiveCall(p, size);
            var waiting := Buffered(p);
            && (r.Got? <==> (p.state.Established? || p.state.CloseWait?) && waiting != [])
            && (r.MustSleep? <==> p.state.Established? && waiting == [])
            && (r.EndOfStream? <==> p.state.CloseWait? && waiting == [])
            && (r.WrongState? <==> !p.state.Established? && !p.state.CloseWait?)
            && (r.Got? ==>
                  var n := Min(size, |waiting|);
                  && r.data == waiting[..n] && Buffered(r.pcb) == waiting[n..]
                  && r.pcb == p.(buf := r.pcb.buf, rcvWnd := p.rcvWnd + n))
  {
    var r := ReceiveCall(p, size);
    if r.Got? {
      TakeConserves(p, size);
      var n := Min(size, |Buffered(p)|);
      assert (r.data + Buffered(r.pcb))[..n] == r.data && (r.data + Buffered(r.pcb))[n..] == Buffered(r.pcb);
    }
  }

  /** A tick changes an entry's clock fields, or closes the connection; nothing else. */
  lemma TickFrame(p: Pcb, i: nat, now: Timeval)
    requires i < |p.queue| && ClocksNormal(p.queue) && Normal(now)
    ensures var p' := Tick(p, i, now).pcb;
            && p' == p.(state := p'.state, queue := p'.queue)
            && (p'.state == p.state || p'.state == Closed)
            && |p'.queue| == |p.queue|
            && forall j :: 0 <= j < |p.queue| ==>
                 p'.queue[j].seqno == p.queue[j].seqno && p'.queue[j].flags == p.queue[j].flags
                 && p'.queue[j].text == p.queue[j].text
  {
  }

  lemma TickKeeps(c: Conn, i: nat, now: Timeval)
    requires OpenInv(c) && i < |c.pcb.queue| && ClocksNormal(c.pcb.queue) && Normal(now)
    ensures var p := Tick(c.pcb, i, now).pcb;
            p.state.Closed? || OpenInv(c.(pcb := p))
  {
  }

  lemma ListenKeeps(c: Conn, s: Segment, local: Endpoint, foreign: Endpoint, iss: u32, now: Timeval)
    requires c.pcb.state.Listen? && c.pcb.queue == [] && Untouched(c) && iss < TWO31
    ensures var p := ArrivesListen(c.pcb, s, local, foreign, iss, now).pcb;
            p == c.pcb || (p.state.SynReceived? && OpenInv(c.(pcb := p)))
  {
  }

  lemma SynSentKeeps(c: Conn, s: Segment, local: Endpoint, foreign: Endpoint, now: Timeval)
    requires OpenInv(c) && c.pcb.state.SynSent?
    ensures var p := ArrivesSynSent(c.pcb, s, local, foreign, now).pcb;
            OpenInv(c.(pcb := p)) && p.sndUna >= c.pcb.sndUna && Open(p.state)
  {
    hide Cleanup, Emit, RstFor;
    var p := c.pcb;
    if s.flags.ack && p.iss < s.ack <= p.sndNxt {
      CleanupKeeps(p.queue, p.sndUna, s.ack, p.sndNxt);
    }
  }

  /** Taking an acknowledgement keeps the send variables in order, and a FIN in the queue until it is covered. */
  lemma AckUpdateKeeps(c: Conn, s: Segment)
    requires SendVars(c)
    ensures var p := AckUpdate(c.pcb, s);
            && SendVars(c.(pcb := p))
            && p.sndUna == (if AcksNew(c.pcb, s) then s.ack else c.pcb.sndUna)
            && (AcksNew(c.pcb, s) && s.ack == p.sndNxt ==> p.queue == [])
            && (FinQueued(c.pcb) && p.sndUna < p.sndNxt ==> FinQueued(p))
            && (!AcksNew(c.pcb, s) ==> p == c.pcb)
            && p == c.pcb.(sndUna := p.sndUna, queue := p.queue, sndWnd := p.sndWnd, wl1 := p.wl1, wl2 := p.wl2)
  {
    if AcksNew(c.pcb, s) {
      CleanupKeeps(c.pcb.queue, c.pcb.sndUna, s.ack, c.pcb.sndNxt);
    }
  }

  /** What the ACK field does to the send side, in the states that take acknowledgements. */
  lemma AckOpenKeeps(c: Conn, s: Segment)
    requires SendVars(c) && FinMatchesState(c)
    requires c.pcb.state.Established? || c.pcb.state.FinWait1? || c.pcb.state.FinWait2? || c.pcb.state.CloseWait?
    ensures var r := AckOpen(c.pcb, s);
            var c' := c.(pcb := r.pcb);
            && SendVars(c') && FinMatchesState(c')
            && r.pcb.sndUna >= c.pcb.sndUna
            && (r.pcb.state.Established? || r.pcb.state.FinWait1? || r.pcb.state.FinWait2? || r.pcb.state.CloseWait?)
            && r.pcb.buf == c.pcb.buf && r.pcb.rcvWnd == c.pcb.rcvWnd && r.pcb.rcvNxt == c.pcb.rcvNxt
            && (r.Go? && r.pcb.state == FinWait1 ==> s.ack != r.pcb.sndNxt)
            && (r.Stop? <==> s.ack > c.pcb.sndNxt)
            && (r.pcb.state.CloseWait? <==> c.pcb.state.CloseWait?)
  {
    hide AckUpdate, FinQueued;
    AckUpdateKeeps(c, s);
  }

  /** Copying a segment's text appends it to the waiting octets. */
  lemma TextConserves(p: Pcb, s: Segment)
    requires TextPhase(p, s).Done?
    ensures Buffered(TextPhase(p, s).pcb) == Buffered(p) + (if TakesText(p, s) then s.text else [])
  {
  }

  lemma TextKeeps(c: Conn, s: Segment)
    requires OpenInv(c) && TextPhase(c.pcb, s).Done?
    ensures var p := TextPhase(c.pcb, s).pcb;
            && OpenInv(c.(pcb := p, copied := c.copied + (if TakesText(c.pcb, s) then s.text else [])))
            && p.state == c.pcb.state && p.sndUna == c.pcb.sndUna && p.sndNxt == c.pcb.sndNxt
  {
  }

  lemma FinKeeps(c: Conn, s: Segment)
    requires OpenInv(c)
    requires c.pcb.state.Established? || c.pcb.state.FinWait1? || c.pcb.state.FinWait2? || c.pcb.state.CloseWait?
    requires c.pcb.state.FinWait1? ==> s.ack != c.pcb.sndNxt
    ensures var p := FinPhase(c.pcb, s).pcb;
            && OpenInv(c.(pcb := p)) && Open(p.state) && !p.state.SynSent? && p.sndUna == c.pcb.sndUna
            && (c.pcb.state.FinWait1? ==> !p.state.TimeWait?)
  {
  }

  lemma FinsFrame(c: Conn, fins: nat)
    requires OpenInv(c) && !c.pcb.state.SynSent?
    ensures OpenInv(c.(fins := fins))
  {
  }

  /** Text and FIN leave the send side alone; a FIN moves FIN-WAIT-1 to CLOSING, never straight to TIME-WAIT. */
  lemma TextAndFinKeep(c: Conn, s: Segment, fins: nat)
    requires OpenInv(c)
    requires c.pcb.state.Established? || c.pcb.state.FinWait1? || c.pcb.state.FinWait2? || c.pcb.state.CloseWait?
    requires c.pcb.state.FinWait1? ==> s.ack != c.pcb.sndNxt
    requires TextPhase(c.pcb, s).Done?
    ensures var p := FinPhase(TextPhase(c.pcb, s).pcb, s).pcb;
            && OpenInv(c.(pcb := p, copied := c.copied + (if TakesText(c.pcb, s) then s.text else []), fins := fins))
            && Open(p.state) && p.sndUna == c.pcb.sndUna
            && (c.pcb.state.FinWait1? ==> !p.state.TimeWait?)
  {
    hide TextPhase, FinPhase, OpenInv;
    var c1 := c.(pcb := TextPhase(c.pcb, s).pcb, copied := c.copied + (if TakesText(c.pcb, s) then s.text else []));
    TextKeeps(c, s);
    FinKeeps(c1, s);
    FinsFrame(c1.(pcb := FinPhase(c1.pcb, s).pcb), fins);
  }

  /** After the ACK field, text and FIN make up the rest of what a segment does. */
  lemma AfterAck(c: Conn, ev: Event, p1: Pcb)
    requires ev.DoSegment? && Enabled(c, ev) && Processed(c.pcb, ev.seg)
    requires !c.pcb.state.Closed? && !c.pcb.state.Listen? && !c.pcb.state.SynSent?
    requires AckPhase(c.pcb, ev.seg, ev.local, ev.foreign, ev.destroyed) == Go(p1)
    ensures TextPhase(p1, ev.seg).Done?
    ensures AfterSegment(c, ev) ==
            c.(pcb := FinPhase(TextPhase(p1, ev.seg).pcb, ev.seg).pcb,
               copied := c.copied + (if TakesText(p1, ev.seg) then ev.seg.text else []),
               fins := c.fins + (if ev.seg.flags.fin then 1 else 0))
  {
  }

  lemma StopsAtAck(c: Conn, ev: Event)
    requires ev.DoSegment? && Enabled(c, ev) && Processed(c.pcb, ev.seg)
    requires !c.pcb.state.Closed? && !c.pcb.state.Listen? && !c.pcb.state.SynSent?
    requires AckPhase(c.pcb, ev.seg, ev.local, ev.foreign, ev.destroyed).Stop?
    ensures AfterSegment(c, ev) == c.(pcb := AckPhase(c.pcb, ev.seg, ev.local, ev.foreign, ev.destroyed).pcb)
  {
  }

  lemma ProcessedKeeps(c: Conn, ev: Event)
    requires OpenInv(c) && ev.DoSegment? && Enabled(c, ev) && Processed(c.pcb, ev.seg)
    requires c.pcb.state.Established? || c.pcb.state.FinWait1? || c.pcb.state.FinWait2? || c.pcb.state.CloseWait?
    ensures OpenInv(AfterSegment(c, ev)) && Open(AfterSegment(c, ev).pcb.state)
    ensures AfterSegment(c, ev).pcb.sndUna >= c.pcb.sndUna
  {
    hide Arrives, TextPhase, FinPhase, AckOpen, AfterSegment;
    AckOpenKeeps(c, ev.seg);
    match AckOpen(c.pcb, ev.seg)
    case Stop(_, _) => StopsAtAck(c, ev);
    case Go(p1) =>
      AfterAck(c, ev, p1);
      TextAndFinKeep(c.(pcb := p1), ev.seg, c.fins + (if ev.seg.flags.fin then 1 else 0));
  }

  lemma SynReceivedKeeps(c: Conn, ev: Event)
    requires OpenInv(c) && ev.DoSegment? && Enabled(c, ev) && Processed(c.pcb, ev.seg)
    requires c.pcb.state.SynReceived?
    ensures OpenInv(AfterSegment(c, ev)) && Open(AfterSegment(c, ev).pcb.state)
    ensures AfterSegment(c, ev).pcb.sndUna >= c.pcb.sndUna
  {
    hide Arrives, TextPhase, FinPhase, AckOpen, AfterSegment;
    if c.pcb.sndUna <= ev.seg.ack <= c.pcb.sndNxt {
      var c0 := c.(pcb := c.pcb.(state := Established));
      AckOpenKeeps(c0, ev.seg);
      match AckOpen(c0.pcb, ev.seg)
      case Stop(_, _) => StopsAtAck(c, ev);
      case Go(p1) =>
        AfterAck(c, ev, p1);
        TextAndFinKeep(c.(pcb := p1), ev.seg, c.fins + (if ev.seg.flags.fin then 1 else 0));
    } else {
      StopsAtAck(c, ev);
    }
  }

  lemma OpenSegmentKeeps(c: Conn, ev: Event)
    requires OpenInv(c) && Open(c.pcb.state) && ev.DoSegment? && Enabled(c, ev)
    ensures var c' := AfterSegment(c, ev);
            && (Open(c'.pcb.state) ==> OpenInv(c') && c'.pcb.sndUna >= c.pcb.sndUna)
            && (!Open(c'.pcb.state) ==> c.pcb.state.LastAck? && (c'.pcb.state.Free? || c'.pcb.state.Closed?))
  {
    if c.pcb.state.SynSent? {
      SynSentKeeps(c, ev.seg, ev.local, ev.foreign, ev.now);
    } else if !Processed(c.pcb, ev.seg) {
      NotProcessed(c.pcb, ev);
    } else if c.pcb.state.SynReceived? {
      SynReceivedKeeps(c, ev);
    } else if c.pcb.state.LastAck? {
      InOrder(c.pcb, ev);
    } else {
      ProcessedKeeps(c, ev);
    }
  }

  // ---- Preservation however much was sent ----

  predicate PastHandshake(st: State) { st.Established? || st.FinWait1? || st.FinWait2? || st.CloseWait? }

  /** What the ACK field leaves alone in any PCB. */
  lemma AckOpenFrame(p: Pcb, s: Segment)
    requires PastHandshake(p.state)
    ensures var r := AckOpen(p, s);
            && r.pcb.iss == p.iss && r.pcb.sndNxt == p.sndNxt && r.pcb.sndUna >= p.sndUna
            && r.pcb.buf == p.buf && r.pcb.rcvWnd == p.rcvWnd && r.pcb.rcvNxt == p.rcvNxt && r.pcb.irs == p.irs
            && PastHandshake(r.pcb.state) && (SentFin(r.pcb.state) <==> SentFin(p.state))
            && (r.pcb.state.CloseWait? <==> p.state.CloseWait?)
            && (r.Stop? <==> s.ack > p.sndNxt && s.ack >= p.sndUna)
  {
  }

  lemma TextAndFinFrame(p: Pcb, s: Segment)
    requires PastHandshake(p.state) && TextPhase(p, s).Done?
    ensures var p' := FinPhase(TextPhase(p, s).pcb, s).pcb;
            && p'.iss == p.iss && p'.sndNxt == p.sndNxt && p'.sndUna == p.sndUna
            && Open(p'.state) && !p'.state.SynSent? && !p'.state.SynReceived?
            && (SentFin(p'.state) <==> SentFin(p.state))
            && Buffered(p') == Buffered(p) + (if TakesText(p, s) then s.text else [])
  {
    TextConserves(p, s);
  }

  /** A segment taken past its ACK field. */
  lemma AckedAlways(c: Conn, ev: Event, p0: Pcb)
    requires Always(c) && ev.DoSegment? && Enabled(c, ev) && Processed(c.pcb, ev.seg)
    requires !c.pcb.state.Closed? && !c.pcb.state.Listen? && !c.pcb.state.SynSent?
    requires p0 == c.pcb.(state := p0.state) && PastHandshake(p0.state) && (SentFin(p0.state) <==> c.fin)
    requires AckPhase(c.pcb, ev.seg, ev.local, ev.foreign, ev.destroyed) == AckOpen(p0, ev.seg)
    ensures var c' := AfterSegment(c, ev);
            Open(c'.pcb.state) && Always(c') && c'.pcb.iss == c.pcb.iss && c'.pcb.sndUna >= c.pcb.sndUna
  {
    hide Arrives, TextPhase, FinPhase, AckOpen, AckPhase, AfterSegment, Buffered;
    AckOpenFrame(p0, ev.seg);
    BufferedFrame(c.pcb, AckOpen(p0, ev.seg).pcb);
    match AckOpen(p0, ev.seg)
    case Stop(_, _) => StopsAtAck(c, ev);
    case Go(p1) =>
      AfterAck(c, ev, p1);
      TextAndFinFrame(p1, ev.seg);
      var text := if TakesText(p1, ev.seg) then ev.seg.text else [];
      assert c.delivered + (Buffered(c.pcb) + text) == (c.delivered + Buffered(c.pcb)) + text;
  }

  lemma BufferedFrame(p: Pcb, p': Pcb)
    requires p.buf == p'.buf && p.rcvWnd == p'.rcvWnd
    ensures Buffered(p) == Buffered(p')
  {
  }

  lemma SynSentAlways(c: Conn, ev: Event)
    requires Always(c) && c.pcb.state.SynSent? && ev.DoSegment? && Enabled(c, ev)
    ensures var c' := AfterSegment(c, ev);
            Open(c'.pcb.state) && Always(c') && c'.pcb.iss == c.pcb.iss && c'.pcb.sndUna >= c.pcb.sndUna
  {
    hide Cleanup, Emit, RstFor;
    BufferedFrame(c.pcb, AfterSegment(c, ev).pcb);
  }

  lemma SegmentAlways(c: Conn, ev: Event)
    requires Always(c) && Open(c.pcb.state) && ev.DoSegment? && Enabled(c, ev)
    ensures var c' := AfterSegment(c, ev);
            && c'.sent == c.sent && c'.fin == c.fin
            && (Open(c'.pcb.state) ==>
                  Always(c') && c'.pcb.iss == c.pcb.iss && c'.pcb.sndUna >= c.pcb.sndUna)
            && (!Open(c'.pcb.state) ==> c'.pcb.state.Free? || c'.pcb.state.Closed?)
  {
    if c.pcb.state.SynSent? {
      SynSentAlways(c, ev);
    } else if !Processed(c.pcb, ev.seg) {
      NotProcessed(c.pcb, ev);
    } else if c.pcb.state.SynReceived? {
      if c.pcb.sndUna <= ev.seg.ack <= c.pcb.sndNxt {
        AckedAlways(c, ev, c.pcb.(state := Established));
      } else {
        StopsAtAck(c, ev);
      }
    } else if c.pcb.state.LastAck? {
      StopsAtAck(c, ev);
    } else {
      AckedAlways(c, ev, c.pcb);
    }
  }

  lemma SegmentKeeps(c: Conn, ev: Event)
    requires Core(c) && ev.DoSegment? && Enabled(c, ev)
    ensures Core(Keep(AfterSegment(c, ev)))
  {
    hide AfterSegment, Always, OpenInv, Reach;
    if Open(c.pcb.state) {
      SegmentAlways(c, ev);
      ReachFrame(c, AfterSegment(c, ev));
      if Unwrapped(c) { OpenSegmentKeeps(c, ev); }
    } else if c.pcb.state.Listen? {
      ListenSegmentKeeps(c, ev);
    } else {
      IgnoredKeeps(c, ev);
    }
  }

  lemma ReachFrame(c: Conn, c': Conn)
    requires c.sent == c'.sent && c.fin == c'.fin
    ensures c.pcb.iss == c'.pcb.iss ==> Reach(c) == Reach(c')
  {
  }

  lemma ListenSegmentKeeps(c: Conn, ev: Event)
    requires Core(c) && c.pcb.state.Listen? && ev.DoSegment? && Enabled(c, ev)
    ensures Core(Keep(AfterSegment(c, ev)))
  {
    ListenKeeps(c, ev.seg, ev.local, ev.foreign, ev.iss, ev.now);
  }

  lemma IgnoredKeeps(c: Conn, ev: Event)
    requires Core(c) && (c.pcb.state.Free? || c.pcb.state.Closed?) && ev.DoSegment? && Enabled(c, ev)
    ensures Core(Keep(AfterSegment(c, ev)))
  {
    NotProcessed(c.pcb, ev);
  }

  lemma SendAlways(c: Conn, text: seq<byte>, now: Timeval, destroyed: bool)
    requires Always(c) && CanSend(c.pcb)
    ensures Always(c.(pcb := SendText(c.pcb, text, now, true, destroyed).pcb, sent := c.sent + |text|))
  {
    WrapAdds(Reach(c), |text|);
  }

  lemma CloseAlways(c: Conn, now: Timeval)
    requires Always(c) && CanSend(c.pcb)
    ensures Always(c.(pcb := CloseCall(c.pcb, now).pcb, fin := true))
  {
    WrapAdds(Reach(c), 1);
  }

  lemma ReceiveAlways(c: Conn, size: nat)
    requires Always(c) && !c.pcb.state.SynSent?
    ensures var r := Take(c.pcb, size);
            Always(c.(pcb := r.pcb, delivered := c.delivered + r.data))
  {
    TakeConserves(c.pcb, size);
    var r := Take(c.pcb, size);
    assert c.delivered + (r.data + Buffered(r.pcb)) == c.delivered + r.data + Buffered(r.pcb);
  }

  lemma SendCallKeeps(c: Conn, ev: Event)
    requires Core(c) && ev.DoSend? && Enabled(c, ev)
    ensures Core(Apply(c, ev))
  {
    hide OpenInv, Always;
    if ev.ok {
      SendAlways(c, ev.text, ev.now, ev.destroyed);
      if Reach(c) + |ev.text| < TWO32 { SendKeeps(c, ev.text, ev.now, ev.destroyed); }
    }
  }

  lemma CloseCallKeeps(c: Conn, ev: Event)
    requires Core(c) && ev.DoClose? && Enabled(c, ev)
    ensures Core(Apply(c, ev))
  {
    AlwaysFin(c);
    hide OpenInv, Always;
    CloseAlways(c, ev.now);
    if Reach(c) + 1 < TWO32 { CloseKeeps(c, ev.now); }
  }

  lemma ReceiveCallKeeps(c: Conn, ev: Event)
    requires Core(c) && ev.DoReceive?
    ensures Core(Apply(c, ev))
  {
    hide Always, OpenInv;
    if ReceiveCall(c.pcb, ev.size).Got? {
      ReceiveAlways(c, ev.size);
      if Unwrapped(c) { ReceiveKeeps(c, ev.size); }
    }
  }

  lemma TickEventKeeps(c: Conn, ev: Event)
    requires Core(c) && ev.DoTick? && Enabled(c, ev)
    ensures Core(Apply(c, ev))
  {
    TickFrame(c.pcb, ev.index, ev.now);
    var p := Tick(c.pcb, ev.index, ev.now).pcb;
    if Open(c.pcb.state) && !p.state.Closed? {
      BufferedFrame(c.pcb, p);
      if Unwrapped(c) { TickKeeps(c, ev.index, ev.now); }
    }
    hide OpenInv, Tick, Buffered;
  }

  lemma EventKeeps(c: Conn, ev: Event)
    requires Inv(c) && Enabled(c, ev)
    ensures Inv(Apply(c, ev))
  {
    hide Core;
    EventBackedOff(c, ev);
    match ev
    case DoTick(_, _) => TickEventKeeps(c, ev);
    case DoSegment(_, _, _, _, _, _) => SegmentKeeps(c, ev);
    case DoSend(_, _, _, _) => SendCallKeeps(c, ev);
    case DoClose(_) => CloseCallKeeps(c, ev);
    case DoReceive(_) => ReceiveCallKeeps(c, ev);
    case _ => OpenKeeps(c, ev);
  }

  /** Every state of every run of a slot that starts out cleared satisfies the invariant. */
  lemma {:induction false} EveryRunKeeps(c: Conn, evs: seq<Event>)
    requires Inv(c) && IsRun(c, evs)
    ensures Inv(Run(c, evs))
    decreases |evs|
  {
    if evs == [] {
    } else {
      EventKeeps(c, evs[0]);
      EveryRunKeeps(Apply(c, evs[0]), evs[1..]);
    }
  }

  /**
   * In every run of a cleared slot, however much is sent: the send variables are in order and exact if and only if the
   * sequence space used, ISS + 1 + octets sent + FIN, stays below 2^32.
   */
  lemma SendVariablesIff(evs: seq<Event>)
    requires IsRun(Fresh(), evs) && Open(Run(Fresh(), evs).pcb.state)
    ensures var c := Run(Fresh(), evs);
            var reach := c.pcb.iss + 1 + c.sent + (if c.fin then 1 else 0);
            && c.pcb.sndNxt == U32(reach)
            && (c.pcb.iss <= c.pcb.sndUna <= c.pcb.sndNxt == reach <==> reach < TWO32)
  {
    EveryRunKeeps(Fresh(), evs);
  }

  /**
   * Spelled out while sequence numbers do not wrap: the order of the queue and what the state says about our FIN; and
   * in every run the back-off of every queued segment.
   */
  lemma SendVariablesInEveryRun(evs: seq<Event>)
    requires IsRun(Fresh(), evs) && Open(Run(Fresh(), evs).pcb.state)
    ensures var c := Run(Fresh(), evs);
            var p := c.pcb;
            && (Unwrapped(c) ==>
                  && p.iss <= p.sndUna <= p.sndNxt == Reach(c)
                  && Sorted(p.queue)
                  && (p.state.FinWait1? || p.state.Closing? || p.state.LastAck? ==>
                        p.sndUna < p.sndNxt && FinQueued(p))
                  && (p.state.FinWait2? || p.state.TimeWait? ==> p.sndUna == p.sndNxt && p.queue == []))
            && (c.fin <==> SentFin(p.state))
            && (forall e :: e in p.queue ==> 200_000 <= e.rto <= 6_400_000)
  {
    hide Always, Sorted, Within;
    EveryRunKeeps(Fresh(), evs);
    AlwaysFin(Run(Fresh(), evs));
    TimeoutRange(Run(Fresh(), evs).pcb.queue);
  }

  lemma AlwaysFin(c: Conn)
    requires Always(c)
    ensures c.fin <==> SentFin(c.pcb.state)
  {
  }

  lemma TimeoutRange(q: seq<Entry>)
    requires AllBackedOff(q)
    ensures forall e :: e in q ==> 200_000 <= e.rto <= 6_400_000
  {
    forall e | e in q ensures 200_000 <= e.rto <= 6_400_000 {
      assert BackedOff(e);
      var n: nat :| n <= 5 && Resent(e, n);
      Pow2UpTo5(n);
    }
  }

  /** SND.UNA never moves back while a connection lasts, even after SND.NXT has wrapped. */
  lemma UnaNeverDecreases(c: Conn, ev: Event)
    requires Inv(c) && Enabled(c, ev) && Open(c.pcb.state) && Open(Apply(c, ev).pcb.state)
    ensures Apply(c, ev).pcb.sndUna >= c.pcb.sndUna
  {
    if ev.DoSegment? {
      hide AfterSegment, Always;
      SegmentAlways(c, ev);
    } else if ev.DoTick? {
      TickFrame(c.pcb, ev.index, ev.now);
    }
  }

  /** In every reachable state short of wrapping, cleaning the queue up to any acknowledgement is filtering it. */
  lemma CleanupFiltersInEveryRun(evs: seq<Event>, una: u32)
    requires IsRun(Fresh(), evs) && Open(Run(Fresh(), evs).pcb.state) && Unwrapped(Run(Fresh(), evs))
    ensures var q := Run(Fresh(), evs).pcb.queue;
            Cleanup(q, una) == Unacked(q, una)
  {
    EveryRunKeeps(Fresh(), evs);
    CleanupIsFilter(Run(Fresh(), evs).pcb.queue, una);
  }

  /**
   * After the ACK field of a segment has been taken in a reachable FIN-WAIT-1 connection, a state that is still FIN-
   * WAIT-1 means the segment did not acknowledge our FIN: the FIN check can only choose CLOSING.
   */
  lemma FinCheckSeesFinUnacked(evs: seq<Event>, s: Segment)
    requires IsRun(Fresh(), evs) && Run(Fresh(), evs).pcb.state.FinWait1? && Unwrapped(Run(Fresh(), evs))
    requires AckOpen(Run(Fresh(), evs).pcb, s).Go?
    ensures var p1 := AckOpen(Run(Fresh(), evs).pcb, s).pcb;
            && (p1.state.FinWait1? ==>
                  s.ack != p1.sndNxt && p1.sndUna < p1.sndNxt && FinQueued(p1) && FinState(p1, s) == Closing)
            && (p1.state.FinWait2? ==>
                  p1.sndUna == p1.sndNxt && p1.queue == [] && FinState(p1, s) == TimeWait)
            && (p1.state.FinWait1? || p1.state.FinWait2?)
  {
    var c := Run(Fresh(), evs);
    EveryRunKeeps(Fresh(), evs);
    AckOpenKeeps(c, s);
  }

  /** An active open whose SYN cannot be sent leaves a free slot, or a closed one that still names both endpoints. */
  lemma FailedOpenFreesIff(c: Conn, ev: Event)
    requires ev.DoOpenActive? && !ev.ok && Enabled(c, ev)
    ensures Apply(c, ev) == Fresh() <==> ev.destroyed
    ensures !ev.destroyed ==>
              var p := Apply(c, ev).pcb; p.state == Closed && p.local == ev.local && p.foreign == ev.foreign
  {
  }

  /**
   * A reachable LAST-ACK connection, before wrapping, is ended by a processed segment if and only if the segment
   * acknowledges everything sent and the FIN; otherwise the segment changes nothing.
   */
  lemma LastAckEndsIff(evs: seq<Event>, ev: Event)
    requires IsRun(Fresh(), evs) && Run(Fresh(), evs).pcb.state.LastAck?
    requires ev.DoSegment? && Enabled(Run(Fresh(), evs), ev) && Processed(Run(Fresh(), evs).pcb, ev.seg)
    ensures var c := Run(Fresh(), evs);
            var c' := Apply(c, ev);
            && (!Open(c'.pcb.state) <==> ev.seg.ack == U32(c.pcb.iss + 1 + c.sent + 1))
            && (!Open(c'.pcb.state) ==> if ev.destroyed then c'.pcb == ZeroPcb() else c'.pcb == c.pcb.(state := Closed))
            && (Open(c'.pcb.state) ==> c'.pcb == c.pcb)
  {
    var c := Run(Fresh(), evs);
    EveryRunKeeps(Fresh(), evs);
    hide Arrives, TextPhase, FinPhase, Acceptable, Run, IsRun;
    InOrder(c.pcb, ev);
  }

  lemma OnlyProcessedOverruns(p: Pcb, ev: Event)
    requires ev.DoSegment?
    requires p.state.Closed? || p.state.Listen? || p.state.SynSent? || !Processed(p, ev.seg)
    ensures Arrives(p, ev.seg, ev.local, ev.foreign, ev.iss, ev.now, ev.destroyed).Done?
  {
  }

  /** The receive buffer of any PCB is overrun exactly by processed text that is longer than the free window. */
  lemma OverrunExactly(p: Pcb, s: Segment, local: Endpoint, foreign: Endpoint, iss: u32, now: Timeval,
                       destroyed: bool)
    ensures Arrives(p, s, local, foreign, iss, now, destroyed).Overrun? <==>
              && Processed(p, s) && |s.text| > p.rcvWnd && (s.ack <= p.sndNxt || s.ack < p.sndUna)
              && ((p.state.SynReceived? && p.sndUna <= s.ack <= p.sndNxt)
                  || p.state.Established? || p.state.FinWait1? || p.state.FinWait2?)
  {
    hide Arrives, FinPhase, AckOpen, Splice;
    var ev := DoSegment(s, local, foreign, iss, now, destroyed);
    if p.state.Closed? || p.state.Listen? || p.state.SynSent? || !Processed(p, s) {
      OnlyProcessedOverruns(p, ev);
    } else {
      InOrder(p, ev);
      var p0 := if p.state.SynReceived? then p.(state := Established) else p;
      if PastHandshake(p0.state) { AckOpenFrame(p0, s); }
    }
  }

  // ---- Runs that show what can happen ----

  const CLOCK := Timeval(0, 0)

  /** A peer's handshake with a listening slot: SYN at sequence number 0, then an acknowledgement with text. */
  function Handshake(local: Endpoint, peer: Endpoint, iss: u32, text: seq<byte>): seq<Event> {
    [DoOpenPassive(local, None),
     DoSegment(Segment(0, 0, SYN, 65535, []), local, peer, iss, CLOCK, true),
     DoSegment(Segment(1, U32(iss + 1), ACK, 65535, text), local, peer, iss, CLOCK, true)]
  }

  /** The PCB after that handshake. */
  predicate Shaken(c: Conn, iss: u32, text: seq<byte>) {
    var p := c.pcb;
    && p.state.Established? && c.sent == 0 && !c.fin && p.iss == iss && p.sndUna == p.sndNxt == U32(iss + 1)
    && p.queue == [] && p.sndWnd == 65535 && p.wl1 == 1 && p.wl2 == p.sndUna
    && p.rcvNxt == 1 + |text| && p.rcvWnd == BUF_SIZE - |text|
  }

  lemma ShakeSyn(local: Endpoint, peer: Endpoint, iss: u32)
    requires iss < TWO31
    ensures var ev := DoSegment(Segment(0, 0, SYN, 65535, []), local, peer, iss, CLOCK, true);
            var c := Fresh().(pcb := OpenPassive(ZeroPcb(), local, None), here := local);
            Enabled(c, ev) &&
            var p := Apply(c, ev).pcb;
            && Untouched(Apply(c, ev)) && p.state.SynReceived? && p.iss == p.sndUna == iss
            && p.sndNxt == iss + 1 && p.rcvNxt == 1 && p.rcvWnd == BUF_SIZE && p.wl1 == 0
            && p.queue == [Entry(CLOCK, CLOCK, DEFAULT_RTO, iss, SYN_ACK, [])]
  {
  }

  lemma ShakeAck(c: Conn, local: Endpoint, peer: Endpoint, iss: u32, text: seq<byte>)
    requires iss < TWO31 && |text| <= 65535 && Untouched(c)
    requires var p := c.pcb;
             && p.state.SynReceived? && p.iss == p.sndUna == iss && p.sndNxt == iss + 1 && p.rcvNxt == 1
             && p.rcvWnd == BUF_SIZE && p.wl1 == 0 && p.queue == [Entry(CLOCK, CLOCK, DEFAULT_RTO, iss, SYN_ACK, [])]
    ensures var ev := DoSegment(Segment(1, U32(iss + 1), ACK, 65535, text), local, peer, iss, CLOCK, true);
            Enabled(c, ev) && Shaken(Apply(c, ev), iss, text)
  {
    hide Arrives, TextPhase, FinPhase, AckPhase, Cleanup, Processed;
    var ev := DoSegment(Segment(1, U32(iss + 1), ACK, 65535, text), local, peer, iss, CLOCK, true);
    var p1 := c.pcb.(state := Established, sndUna := iss + 1, queue := [], sndWnd := 65535, wl1 := 1, wl2 := iss + 1);
    ShakeAckField(c.pcb, ev.seg, local, peer, iss);
    InOrder(c.pcb, ev);
    ShakeText(p1, ev.seg);
  }

  lemma ShakeAckField(p: Pcb, s: Segment, local: Endpoint, peer: Endpoint, iss: u32)
    requires iss < TWO31 && s == Segment(1, U32(iss + 1), ACK, 65535, s.text) && |s.text| <= 65535
    requires && p.state.SynReceived? && p.iss == p.sndUna == iss && p.sndNxt == iss + 1 && p.rcvNxt == 1
             && p.rcvWnd == BUF_SIZE && p.wl1 == 0 && p.queue == [Entry(CLOCK, CLOCK, DEFAULT_RTO, iss, SYN_ACK, [])]
    ensures Processed(p, s)
    ensures AckPhase(p, s, local, peer, true) ==
            Go(p.(state := Established, sndUna := iss + 1, queue := [], sndWnd := 65535, wl1 := 1, wl2 := iss + 1))
  {
    assert p.queue[1..] == [] && Cleanup(p.queue[1..], s.ack) == [];
    assert Cleanup(p.queue, s.ack) == [];
  }

  lemma ShakeText(p: Pcb, s: Segment)
    requires p.state.Established? && s.seqno == p.rcvNxt == 1 && s.flags == ACK && |s.text| <= p.rcvWnd
    ensures TextPhase(p, s).Done?
    ensures var p' := FinPhase(TextPhase(p, s).pcb, s).pcb;
            p' == p.(buf := p'.buf, rcvNxt := 1 + |s.text|, rcvWnd := p.rcvWnd - |s.text|)
  {
    hide Splice;
  }

  lemma HandshakeRuns(local: Endpoint, peer: Endpoint, iss: u32, text: seq<byte>)
    requires iss < TWO31 && |text| <= 65535
    ensures IsRun(Fresh(), Handshake(local, peer, iss, text))
    ensures Shaken(Run(Fresh(), Handshake(local, peer, iss, text)), iss, text)
  {
    var evs := Handshake(local, peer, iss, text);
    hide Arrives, Shaken;
    ShakeSyn(local, peer, iss);
    var c1 := Fresh().(pcb := OpenPassive(ZeroPcb(), local, None), here := local);
    var c2 := Apply(c1, evs[1]);
    ShakeAck(c2, local, peer, iss, text);
    var c3 := Apply(c2, evs[2]);
    assert Apply(Fresh(), evs[0]) == c1;
    RunCons(c2, evs[2], []);
    RunCons(c1, evs[1], [evs[2]]);
    RunCons(Fresh(), evs[0], [evs[1], evs[2]]);
    assert evs == [evs[0]] + [evs[1], evs[2]] && [evs[1], evs[2]] == [evs[1]] + [evs[2]] && [evs[2]] == [evs[2]] + [];
  }

  /** One event before a run. */
  lemma RunCons(c: Conn, ev: Event, rest: seq<Event>)
    requires Enabled(c, ev) && IsRun(Apply(c, ev), rest)
    ensures IsRun(c, [ev] + rest) && Run(c, [ev] + rest) == Run(Apply(c, ev), rest)
  {
    assert ([ev] + rest)[1..] == rest;
  }

  /**
   * A peer that ignores the advertised window overruns the buffer: after a handshake that carries some text, a segment
   * at RCV.NXT whose text does not fit the rest.
   */
  lemma OverrunIsReached(local: Endpoint, peer: Endpoint, iss: u32, first: seq<byte>, second: seq<byte>)
    requires iss < TWO31 && |first| < 65535 && |second| < 65535 && |first| + |second| > BUF_SIZE
    ensures var evs := Handshake(local, peer, iss, first);
            && IsRun(Fresh(), evs)
            && var s := Segment(1 + |first|, U32(iss + 1), ACK, 65535, second);
               Arrives(Run(Fresh(), evs).pcb, s, local, peer, iss, CLOCK, true).Overrun?
  {
    hide Arrives, Handshake;
    HandshakeRuns(local, peer, iss, first);
    var p := Run(Fresh(), Handshake(local, peer, iss, first)).pcb;
    var s := Segment(1 + |first|, U32(iss + 1), ACK, 65535, second);
    assert U32(p.rcvNxt + p.rcvWnd) == 65536;
    OverrunExactly(p, s, local, peer, iss, CLOCK, true);
  }

  /** Nothing in flight, and a window of 65535 octets. */
  predicate Idle(c: Conn) {
    var p := c.pcb;
    && p.state.Established? && p.sndUna == p.sndNxt == Reach(c) && !c.fin && p.queue == []
    && p.sndWnd == 65535 && p.wl1 == 1 && p.wl2 <= p.sndUna && p.rcvNxt == 1 && p.rcvWnd == BUF_SIZE
  }

  /** Every send stays within the capacity that tcp_send computes. */
  ghost predicate Modest(c: Conn, evs: seq<Event>)
    requires IsRun(c, evs)
    decreases |evs|
  {
    evs != [] ==>
      && (evs[0].DoSend? ==> |evs[0].text| <= Capacity(c.pcb))
      && Modest(Apply(c, evs[0]), evs[1..])
  }

  function OneOctet(): Event { DoSend([0], CLOCK, true, true) }

  function ItsAck(p: Pcb): Event {
    DoSegment(Segment(1, p.sndNxt, ACK, 65535, []), p.local, p.foreign, 0, CLOCK, true)
  }

  lemma OctetSent(c: Conn)
    requires Idle(c) && Reach(c) < TWO32
    ensures Enabled(c, OneOctet()) && Capacity(c.pcb) == 65535
    ensures var c' := Apply(c, OneOctet());
            && c'.pcb == c.pcb.(sndNxt := U32(c.pcb.sndNxt + 1),
                                queue := [Entry(CLOCK, CLOCK, DEFAULT_RTO, c.pcb.sndNxt, PSH_ACK, [0])])
            && c'.sent == c.sent + 1 && c'.fin == c.fin
  {
    assert [] + [NewEntry(c.pcb, PSH_ACK, [0], CLOCK)] == [NewEntry(c.pcb, PSH_ACK, [0], CLOCK)];
  }

  lemma OctetAcked(c: Conn, c': Conn)
    requires Idle(c) && Reach(c) + 1 < TWO32
    requires c'.pcb == c.pcb.(sndNxt := U32(c.pcb.sndNxt + 1),
                              queue := [Entry(CLOCK, CLOCK, DEFAULT_RTO, c.pcb.sndNxt, PSH_ACK, [0])])
    requires c'.sent == c.sent + 1 && c'.fin == c.fin
    ensures Enabled(c', ItsAck(c'.pcb)) && Idle(Apply(c', ItsAck(c'.pcb)))
    ensures Apply(c', ItsAck(c'.pcb)).sent == c.sent + 1 && Apply(c', ItsAck(c'.pcb)).pcb.iss == c.pcb.iss
  {
    hide Arrives;
    var p, ev := c'.pcb, ItsAck(c'.pcb);
    assert p.queue[1..] == [] && Cleanup(p.queue[1..], ev.seg.ack) == [];
    assert Cleanup(p.queue, ev.seg.ack) == [];
    assert Processed(p, ev.seg);
    InOrder(p, ev);
    var p1 := p.(sndUna := p.sndNxt, queue := [], wl2 := p.sndNxt);
    assert AckPhase(p, ev.seg, ev.local, ev.foreign, true) == Go(p1);
  }

  /** Octets sent and acknowledged one at a time. */
  lemma {:induction false} SendMany(c: Conn, n: nat) returns (evs: seq<Event>)
    requires Idle(c) && Reach(c) + n < TWO32
    ensures IsRun(c, evs) && Modest(c, evs)
    ensures var d := Run(c, evs);
            Idle(d) && d.sent == c.sent + n && d.pcb.iss == c.pcb.iss
    decreases n
  {
    if n == 0 {
      evs := [];
    } else {
      hide Enabled, Apply, Idle;
      OctetSent(c);
      var c1 := Apply(c, OneOctet());
      OctetAcked(c, c1);
      var c2 := Apply(c1, ItsAck(c1.pcb));
      var rest := SendMany(c2, n - 1);
      var mid := [ItsAck(c1.pcb)] + rest;
      RunCons(c1, ItsAck(c1.pcb), rest);
      RunCons(c, OneOctet(), mid);
      assert mid[1..] == rest;
      evs := [OneOctet()] + mid;
      assert evs[1..] == mid;
    }
  }

  lemma {:induction false} RunJoin(c: Conn, a: seq<Event>, b: seq<Event>)
    requires IsRun(c, a) && IsRun(Run(c, a), b)
    ensures IsRun(c, a + b) && Run(c, a + b) == Run(Run(c, a), b)
    decreases |a|
  {
    hide Enabled, Apply;
    if a == [] {
      assert a + b == b;
    } else {
      RunJoin(Apply(c, a[0]), a[1..], b);
      RunCons(c, a[0], a[1..] + b);
      assert a + b == [a[0]] + (a[1..] + b);
    }
  }

  lemma {:induction false} ModestJoin(c: Conn, a: seq<Event>, b: seq<Event>)
    requires IsRun(c, a) && IsRun(Run(c, a), b) && IsRun(c, a + b) && Modest(c, a) && Modest(Run(c, a), b)
    ensures Modest(c, a + b)
    decreases |a|
  {
    hide Enabled, Apply;
    if a == [] {
      assert a + b == b;
    } else {
      assert (a + b)[0] == a[0] && (a + b)[1..] == a[1..] + b;
      ModestJoin(Apply(c, a[0]), a[1..], b);
    }
  }

  /**
   * Sequence numbers do wrap: some run, with every send inside its capacity and every octet acknowledged before the
   * next, ends with SND.UNA at 2^32 - 1, SND.NXT at 0 and one octet in flight, in a state where no acknowledgement is
   * ever taken.
   */
  lemma WrapIsReached(local: Endpoint, peer: Endpoint, iss: u32)
    returns (evs: seq<Event>)
    requires iss < TWO31
    ensures IsRun(Fresh(), evs) && Modest(Fresh(), evs)
    ensures var p := Run(Fresh(), evs).pcb;
            && p.state.Established? && p.iss == iss && p.sndUna == TWO32 - 1 && p.sndNxt == 0 && |p.queue| == 1
            && (forall s: Segment :: AckUpdate(p, s) == p)
  {
    var first := Handshake(local, peer, iss, []);
    HandshakeRuns(local, peer, iss, []);
    var c := Run(Fresh(), first);
    assert Modest(Fresh(), first) by { HandshakeIsModest(local, peer, iss); }
    var many := SendMany(c, TWO32 - 1 - (iss + 1));
    var d := Run(c, many);
    OctetSent(d);
    RunCons(d, OneOctet(), []);
    assert [OneOctet()] + [] == [OneOctet()] && [OneOctet()][1..] == [];
    hide Enabled, Apply, Handshake;
    RunJoin(c, many, [OneOctet()]);
    ModestJoin(c, many, [OneOctet()]);
    RunJoin(Fresh(), first, many + [OneOctet()]);
    ModestJoin(Fresh(), first, many + [OneOctet()]);
    evs := first + (many + [OneOctet()]);
  }

  lemma HandshakeIsModest(local: Endpoint, peer: Endpoint, iss: u32)
    requires IsRun(Fresh(), Handshake(local, peer, iss, []))
    ensures Modest(Fresh(), Handshake(local, peer, iss, []))
  {
    NoSendIsModest(Fresh(), Handshake(local, peer, iss, []));
  }

  lemma {:induction false} NoSendIsModest(c: Conn, evs: seq<Event>)
    requires IsRun(c, evs) && forall ev :: ev in evs ==> !ev.DoSend?
    ensures Modest(c, evs)
    decreases |evs|
  {
    if evs == [] {
    } else {
      hide Enabled, Apply;
      assert evs[0] in evs;
      NoSendIsModest(Apply(c, evs[0]), evs[1..]);
    }
  }

  /**
   * Text in the window is copied behind what waits, wherever it starts: it lands at its place in the stream exactly
   * when it starts at RCV.NXT.
   */
  lemma InPlaceIff(p: Pcb, s: Segment, local: Endpoint, foreign: Endpoint, iss: u32, now: Timeval, destroyed: bool)
    requires p.state.Established? || p.state.FinWait1? || p.state.FinWait2?
    requires Processed(p, s) && AckOpen(p, s).Go? && s.text != [] && |s.text| <= p.rcvWnd
    requires !s.flags.syn && !s.flags.fin
    ensures var r := Arrives(p, s, local, foreign, iss, now, destroyed);
            && r.Done? && Buffered(r.pcb) == Buffered(p) + s.text
            && (r.pcb.rcvNxt == U32(p.rcvNxt + |s.text|) <==> s.seqno == p.rcvNxt)
  {
    hide Arrives, AckOpen, Acceptable;
    InOrder(p, DoSegment(s, local, foreign, iss, now, destroyed));
    AckOpenFrame(p, s);
    BufferedFrame(p, AckOpen(p, s).pcb);
    InPlaceText(AckOpen(p, s).pcb, s);
  }

  lemma InPlaceText(p: Pcb, s: Segment)
    requires p.state.Established? || p.state.FinWait1? || p.state.FinWait2?
    requires s.text != [] && |s.text| <= p.rcvWnd && !s.flags.syn && !s.flags.fin
    ensures TextPhase(p, s).Done?
    ensures var p' := FinPhase(TextPhase(p, s).pcb, s).pcb;
            && Buffered(p') == Buffered(p) + s.text
            && (p'.rcvNxt == U32(p.rcvNxt + |s.text|) <==> s.seqno == p.rcvNxt)
  {
    hide Splice, Buffered, U32;
    TextConserves(p, s);
    SameAdvance(p.rcvNxt, s.seqno, |s.text|);
  }

  lemma SameAdvance(x: u32, y: u32, n: nat)
    requires n < TWO16
    ensures U32(x + n) == U32(y + n) <==> x == y
  {
  }

  /**
   * After a handshake without text, a segment that starts `gap` octets late is handed out as the start of the stream.
   */
  lemma GapIsSkipped(local: Endpoint, peer: Endpoint, iss: u32, gap: nat, text: seq<byte>)
    requires iss < TWO31 && 0 < gap && text != [] && gap + |text| <= 65535
    ensures var evs := Handshake(local, peer, iss, []);
            && IsRun(Fresh(), evs)
            && var r := Arrives(Run(Fresh(), evs).pcb, Segment(1 + gap, U32(iss + 1), ACK, 65535, text), local, peer,
                                iss, CLOCK, true);
               r.Done? && Buffered(r.pcb) == text && r.pcb.rcvNxt == 1 + gap + |text|
  {
    hide Arrives, Handshake, TextPhase, FinPhase, AckOpen;
    HandshakeRuns(local, peer, iss, []);
    var p := Run(Fresh(), Handshake(local, peer, iss, [])).pcb;
    var s := Segment(1 + gap, U32(iss + 1), ACK, 65535, text);
    assert U32(p.rcvNxt + p.rcvWnd) == 65536 && SegLen(s) == |text| && Buffered(p) == [];
    AckOpenFrame(p, s);
    InPlaceIff(p, s, local, peer, iss, CLOCK, true);
    InOrder(p, DoSegment(s, local, peer, iss, CLOCK, true));
    GapAdvance(AckOpen(p, s).pcb, s);
  }

  lemma GapAdvance(p: Pcb, s: Segment)
    requires p.state.Established? || p.state.FinWait1? || p.state.FinWait2?
    requires s.text != [] && |s.text| <= p.rcvWnd && s.flags == ACK
    ensures TextPhase(p, s).Done? && FinPhase(TextPhase(p, s).pcb, s).pcb.rcvNxt == U32(s.seqno + |s.text|)
  {
    hide Splice;
  }

  // ---- Idealised segments ----

  /** A processed segment that begins at RCV.NXT and fits the window, carries no SYN, and no FIN with text. */
  predicate Ideal(p: Pcb, s: Segment) {
    s.seqno == p.rcvNxt && |s.text| <= p.rcvWnd && !s.flags.syn && (s.flags.fin ==> s.text == [])
  }

  predicate IdealEvent(c: Conn, ev: Event) {
    ev.DoSegment? && !c.pcb.state.SynSent? && Processed(c.pcb, ev.seg) ==> Ideal(c.pcb, ev.seg)
  }

  predicate Synchronised(st: State) { Open(st) && !st.SynSent? }

  /** RCV.NXT counts the octets copied and the FINs taken, modulo 2^32. */
  predicate RcvExact(c: Conn) {
    Synchronised(c.pcb.state) ==> c.pcb.rcvNxt == U32(c.pcb.irs + 1 + |c.copied| + c.fins)
  }

  /** The receive position after the text and the FIN of an idealised segment. */
  lemma IdealAdvance(p: Pcb, s: Segment)
    requires Ideal(p, s)
    requires p.state.Established? || p.state.FinWait1? || p.state.FinWait2? || p.state.CloseWait?
    ensures TextPhase(p, s).Done?
    ensures var p' := FinPhase(TextPhase(p, s).pcb, s).pcb;
            && p'.irs == p.irs
            && p'.rcvNxt == U32(p.rcvNxt + (if TakesText(p, s) then |s.text| else 0) + (if s.flags.fin then 1 else 0))
  {
  }

  /** The ACK field leaves the receive side alone. */
  lemma AckPhaseFrame(p: Pcb, s: Segment, local: Endpoint, foreign: Endpoint, destroyed: bool)
    requires Synchronised(p.state) && Processed(p, s)
    ensures var r := AckPhase(p, s, local, foreign, destroyed);
            && (Synchronised(r.pcb.state) ==>
                  r.pcb.rcvNxt == p.rcvNxt && r.pcb.irs == p.irs && r.pcb.rcvWnd == p.rcvWnd)
            && (r.Go? ==> r.pcb.state.Established? || r.pcb.state.FinWait1? || r.pcb.state.FinWait2?
                          || r.pcb.state.CloseWait?)
  {
  }

  lemma IdealSegmentKeeps(c: Conn, ev: Event)
    requires RcvExact(c) && Enabled(c, ev) && ev.DoSegment? && Processed(c.pcb, ev.seg)
    requires Synchronised(c.pcb.state) && Ideal(c.pcb, ev.seg)
    ensures RcvExact(AfterSegment(c, ev))
  {
    hide Arrives, TextPhase, FinPhase, AckPhase;
    InOrder(c.pcb, ev);
    AckPhaseFrame(c.pcb, ev.seg, ev.local, ev.foreign, ev.destroyed);
    match AckPhase(c.pcb, ev.seg, ev.local, ev.foreign, ev.destroyed)
    case Stop(_, _) =>
    case Go(p1) =>
      IdealAdvance(p1, ev.seg);
      WrapAdds(c.pcb.irs + 1 + |c.copied| + c.fins,
               (if TakesText(p1, ev.seg) then |ev.seg.text| else 0) + (if ev.seg.flags.fin then 1 else 0));
  }

  /** The handshake sets RCV.NXT to one past the peer's SYN. */
  lemma IdealHandshake(c: Conn, ev: Event)
    requires Inv(c) && Enabled(c, ev) && ev.DoSegment? && (c.pcb.state.SynSent? || c.pcb.state.Listen?)
    ensures RcvExact(AfterSegment(c, ev))
  {
    assert c.copied == [] && c.fins == 0;
  }

  lemma IdealArrival(c: Conn, ev: Event)
    requires Inv(c) && RcvExact(c) && Enabled(c, ev) && IdealEvent(c, ev) && ev.DoSegment?
    ensures RcvExact(AfterSegment(c, ev))
  {
    if c.pcb.state.SynSent? || c.pcb.state.Listen? {
      IdealHandshake(c, ev);
    } else if c.pcb.state.Closed? || !Processed(c.pcb, ev.seg) {
      NotProcessed(c.pcb, ev);
    } else {
      IdealSegmentKeeps(c, ev);
    }
  }

  lemma IdealKeeps(c: Conn, ev: Event)
    requires Inv(c) && RcvExact(c) && Enabled(c, ev) && IdealEvent(c, ev)
    ensures RcvExact(Apply(c, ev))
  {
    hide AfterSegment;
    if ev.DoSegment? {
      IdealArrival(c, ev);
    } else if ev.DoTick? {
      TickFrame(c.pcb, ev.index, ev.now);
    }
  }

  /** The right window edge, counted without bound. */
  function RightEdge(c: Conn): nat { c.pcb.irs + 1 + |c.delivered| + BUF_SIZE + c.fins }

  lemma SegmentKeepsIrs(c: Conn, ev: Event)
    requires Enabled(c, ev) && ev.DoSegment? && Synchronised(c.pcb.state)
    requires Synchronised(AfterSegment(c, ev).pcb.state)
    ensures AfterSegment(c, ev).pcb.irs == c.pcb.irs
  {
    hide AckPhase, TextPhase, FinPhase;
    if !Processed(c.pcb, ev.seg) {
      NotProcessed(c.pcb, ev);
    } else {
      InOrder(c.pcb, ev);
      AckPhaseFrame(c.pcb, ev.seg, ev.local, ev.foreign, ev.destroyed);
      var r := AckPhase(c.pcb, ev.seg, ev.local, ev.foreign, ev.destroyed);
      if r.Go? { TextAndFinKeepIrs(r.pcb, ev.seg); }
    }
  }

  lemma TextAndFinKeepIrs(p: Pcb, s: Segment)
    requires TextPhase(p, s).Done?
    ensures FinPhase(TextPhase(p, s).pcb, s).pcb.irs == p.irs
  {
  }

  lemma EdgeIs(c: Conn)
    requires Inv(c) && RcvExact(c) && Synchronised(c.pcb.state)
    ensures U32(c.pcb.rcvNxt + c.pcb.rcvWnd) == U32(RightEdge(c))
  {
    hide OpenInv;
    assert |c.copied| == |c.delivered| + BUF_SIZE - c.pcb.rcvWnd;
    WrapAdds(c.pcb.irs + 1 + |c.copied| + c.fins, c.pcb.rcvWnd);
  }

  /** While a connection lasts, no event of an idealised run moves the right window edge to the left. */
  lemma RightEdgeNeverMovesLeft(c: Conn, ev: Event)
    requires Inv(c) && RcvExact(c) && Enabled(c, ev) && IdealEvent(c, ev)
    requires Synchronised(c.pcb.state) && Synchronised(Apply(c, ev).pcb.state)
    ensures var c' := Apply(c, ev);
            && RightEdge(c) <= RightEdge(c')
            && U32(c.pcb.rcvNxt + c.pcb.rcvWnd) == U32(RightEdge(c))
            && U32(c'.pcb.rcvNxt + c'.pcb.rcvWnd) == U32(RightEdge(c'))
  {
    EventKeeps(c, ev);
    IdealKeeps(c, ev);
    EdgeIs(c);
    EdgeIs(Apply(c, ev));
    hide Inv, RcvExact;
    if ev.DoSegment? { SegmentKeepsIrs(c, ev); } else if ev.DoTick? { TickFrame(c.pcb, ev.index, ev.now); }
  }

  ghost predicate IsIdealRun(c: Conn, evs: seq<Event>)
    decreases |evs|
  {
    evs != [] ==> Enabled(c, evs[0]) && IdealEvent(c, evs[0]) && IsIdealRun(Apply(c, evs[0]), evs[1..])
  }

  lemma {:induction false} IdealRunIsRun(c: Conn, evs: seq<Event>)
    requires Inv(c) && RcvExact(c) && IsIdealRun(c, evs)
    ensures IsRun(c, evs) && Inv(Run(c, evs)) && RcvExact(Run(c, evs))
    decreases |evs|
  {
    if evs == [] {
    } else {
      EventKeeps(c, evs[0]);
      IdealKeeps(c, evs[0]);
      IdealRunIsRun(Apply(c, evs[0]), evs[1..]);
    }
  }

  /**
   * In runs of idealised segments the receive variables are exact: what was copied in is what was delivered followed by
   * what waits in the buffer, and the right window edge sits 65535 octets beyond what was delivered (one more for each
   * FIN).
   */
  lemma IdealRunsAreExact(evs: seq<Event>)
    requires IsIdealRun(Fresh(), evs)
    ensures IsRun(Fresh(), evs)
    ensures var c := Run(Fresh(), evs);
            Synchronised(c.pcb.state) ==>
              && c.copied == c.delivered + Buffered(c.pcb)
              && c.pcb.rcvNxt == U32(c.pcb.irs + 1 + |c.copied| + c.fins)
              && U32(c.pcb.rcvNxt + c.pcb.rcvWnd) == U32(c.pcb.irs + 1 + |c.delivered| + BUF_SIZE + c.fins)
  {
    IdealRunIsRun(Fresh(), evs);
    var c := Run(Fresh(), evs);
    if Synchronised(c.pcb.state) { EdgeIs(c); }
  }

  /**
   * Why idealised segments carry no text with a FIN: a segment at RCV.NXT whose text fits advances RCV.NXT by its
   * length exactly when it does not carry both.
   */
  lemma FinWithTextIff(p: Pcb, s: Segment, local: Endpoint, foreign: Endpoint, iss: u32, now: Timeval,
                       destroyed: bool)
    requires p.state.Established? || p.state.FinWait1? || p.state.FinWait2?
    requires Processed(p, s) && AckOpen(p, s).Go?
    requires s.seqno == p.rcvNxt && |s.text| <= p.rcvWnd && !s.flags.syn
    ensures var r := Arrives(p, s, local, foreign, iss, now, destroyed);
            r.Done? && (r.pcb.rcvNxt == U32(p.rcvNxt + SegLen(s)) <==> !(s.flags.fin && s.text != []))
  {
    hide Arrives, AckOpen, Acceptable;
    InOrder(p, DoSegment(s, local, foreign, iss, now, destroyed));
    AckOpenFrame(p, s);
    FinWithTextAdvance(AckOpen(p, s).pcb, s);
  }

  /** After a handshake without text, a FIN with text is acknowledged as if it were the FIN alone. */
  lemma FinWithTextIsReached(local: Endpoint, peer: Endpoint, iss: u32, text: seq<byte>)
    requires iss < TWO31 && 0 < |text| < 65535
    ensures var evs := Handshake(local, peer, iss, []);
            && IsRun(Fresh(), evs)
            && var r := Arrives(Run(Fresh(), evs).pcb, Segment(1, U32(iss + 1), FIN_ACK, 65535, text), local, peer, iss,
                                CLOCK, true);
               r.Done? && r.pcb.rcvNxt != 1 + |text| + 1
  {
    hide Arrives, Handshake;
    HandshakeRuns(local, peer, iss, []);
    var p := Run(Fresh(), Handshake(local, peer, iss, [])).pcb;
    var s := Segment(1, U32(iss + 1), FIN_ACK, 65535, text);
    assert U32(p.rcvNxt + p.rcvWnd) == 65536 && SegLen(s) == |text| + 1;
    AckOpenFrame(p, s);
    FinWithTextIff(p, s, local, peer, iss, CLOCK, true);
  }

  lemma FinWithTextAdvance(p: Pcb, s: Segment)
    requires p.state.Established? || p.state.FinWait1? || p.state.FinWait2?
    requires s.seqno == p.rcvNxt && |s.text| <= p.rcvWnd && !s.flags.syn
    ensures TextPhase(p, s).Done?
    ensures var p' := FinPhase(TextPhase(p, s).pcb, s).pcb;
            p'.rcvNxt == U32(p.rcvNxt + SegLen(s)) <==> !(s.flags.fin && s.text != [])
  {
    hide Splice;
  }
}
