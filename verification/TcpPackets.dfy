/** The packets of every run of a slot: where they come from and where they go. */
module TcpPackets {
  import opened Base
  import opened Time
  import opened Tcp
  import opened TcpRun
  import opened TcpSend

  /** What an event hands to `ip_output`. */
  function SentBy(c: Conn, ev: Event): seq<Packet>
    requires Enabled(c, ev)
  {
    match ev
    case DoOpenActive(local, foreign, iss, now, ok, destroyed) =>
      OpenActive(c.pcb, local, foreign, iss, now, ok, destroyed).sent
    case DoSegment(seg, local, foreign, iss, now, destroyed) =>
      Arrives(c.pcb, seg, local, foreign, iss, now, destroyed).sent
    case DoSend(text, now, ok, destroyed) => SendText(c.pcb, text, now, ok, destroyed).sent
    case DoClose(now) => CloseCall(c.pcb, now).sent
    case DoTick(i, now) => Tick(c.pcb, i, now).sent
    case _ => []
  }

  /** The endpoints of the connection that an event belongs to, from the calls and the SYN that named them. */
  function Named(c: Conn, ev: Event): (Endpoint, Endpoint) {
    match ev
    case DoOpenActive(local, foreign, _, _, _, _) => (local, foreign)
    case DoSegment(_, local, foreign, _, _, _) => if OpensListener(c, ev) then (local, foreign) else (c.here, c.there)
    case _ => (c.here, c.there)
  }

  /** The PCB holds the endpoints of the history, and none when it is free. */
  predicate Keeps(c: Conn) {
    c.pcb.local == c.here && c.pcb.foreign == c.there && (c.pcb.state.Free? ==> c.pcb == ZeroPcb())
  }

  /** A change of a PCB that leaves its endpoints alone, or clears it. */
  predicate SameEnds(p: Pcb, p': Pcb) { p' == ZeroPcb() || (p'.local == p.local && p'.foreign == p.foreign) }

  lemma AckEnds(p: Pcb, s: Segment, local: Endpoint, foreign: Endpoint, destroyed: bool)
    ensures var r := AckPhase(p, s, local, foreign, destroyed);
            && SameEnds(p, r.pcb) && (r.Go? ==> r.pcb.local == p.local && r.pcb.foreign == p.foreign)
            && (r.pcb.state.Free? ==> p.state.Free? || (r.Stop? && r.pcb == ZeroPcb()))
            && (r.Stop? ==> forall k :: k in r.sent ==> Proper(k, p.local, p.foreign, local, foreign))
  {
    hide Cleanup;
  }

  lemma TextAndFinEnds(p: Pcb, s: Segment)
    requires TextPhase(p, s).Done?
    ensures var t := TextPhase(p, s);
            var f := FinPhase(t.pcb, s);
            && f.pcb.local == p.local && f.pcb.foreign == p.foreign && (f.pcb.state.Free? ==> p.state.Free?)
            && (forall k :: k in t.sent + f.sent ==>
                  !k.seg.flags.rst && k.src == p.local && k.dst == p.foreign)
  {
    hide Splice;
  }

  /** A reset answers the segment to where it came from; anything else runs between the connection's endpoints. */
  predicate Proper(k: Packet, here: Endpoint, there: Endpoint, local: Endpoint, foreign: Endpoint) {
    if k.seg.flags.rst then k.src == local && k.dst == foreign else k.src == here && k.dst == there
  }

  lemma OtherSegmentEnds(p: Pcb, ev: Event)
    requires ev.DoSegment? && !p.state.Closed? && !p.state.Listen? && !p.state.SynSent?
    requires Arrives(p, ev.seg, ev.local, ev.foreign, ev.iss, ev.now, ev.destroyed).Done?
    ensures var r := Arrives(p, ev.seg, ev.local, ev.foreign, ev.iss, ev.now, ev.destroyed);
            && SameEnds(p, r.pcb) && (r.pcb.state.Free? ==> p.state.Free? || r.pcb == ZeroPcb())
            && (p.state.Free? ==> r.pcb == p)
            && forall k :: k in r.sent ==> Proper(k, p.local, p.foreign, ev.local, ev.foreign)
  {
    if !Processed(p, ev.seg) {
      hide Acceptable, Processed;
    } else {
      hide Arrives, AckPhase, TextPhase, FinPhase, Acceptable;
      InOrder(p, ev);
      AckEnds(p, ev.seg, ev.local, ev.foreign, ev.destroyed);
      var a := AckPhase(p, ev.seg, ev.local, ev.foreign, ev.destroyed);
      if a.Go? { TextAndFinEnds(a.pcb, ev.seg); }
    }
  }

  lemma SegmentEnds(c: Conn, ev: Event)
    requires Keeps(c) && ev.DoSegment? && Enabled(c, ev)
    ensures Keeps(Apply(c, ev))
    ensures forall k :: k in SentBy(c, ev) ==> Proper(k, Named(c, ev).0, Named(c, ev).1, ev.local, ev.foreign)
  {
    var p := c.pcb;
    if p.state.Closed? || p.state.Listen? || p.state.SynSent? {
      hide Cleanup;
    } else {
      hide Arrives;
      OtherSegmentEnds(p, ev);
    }
  }

  lemma EventEnds(c: Conn, ev: Event)
    requires Keeps(c) && Enabled(c, ev) && !ev.DoSegment?
    ensures Keeps(Apply(c, ev))
    ensures forall k :: k in SentBy(c, ev) ==> k.src == Named(c, ev).0 && k.dst == Named(c, ev).1
  {
  }

  lemma {:induction false} RunKeepsEnds(c: Conn, evs: seq<Event>)
    requires Keeps(c) && IsRun(c, evs)
    ensures Keeps(Run(c, evs))
    decreases |evs|
  {
    if evs == [] {
    } else {
      if evs[0].DoSegment? { SegmentEnds(c, evs[0]); } else { EventEnds(c, evs[0]); }
      hide Enabled, Apply, Keeps;
      RunKeepsEnds(Apply(c, evs[0]), evs[1..]);
    }
  }

  /**
   * In every run of a slot, each packet that an open, a send, a close or a timer visit sends runs from the local
   * endpoint that the open named, or the SYN's destination, to the foreign one. So does each packet that a segment
   * causes, unless it is a reset; a reset answers from the segment's destination to its source.
   */
  lemma PacketsRunBetweenTheirEndpoints(evs: seq<Event>, ev: Event, k: Packet)
    requires IsRun(Fresh(), evs) && Enabled(Run(Fresh(), evs), ev) && k in SentBy(Run(Fresh(), evs), ev)
    ensures var c := Run(Fresh(), evs);
            if ev.DoSegment? && k.seg.flags.rst then k.src == ev.local && k.dst == ev.foreign
            else (k.src, k.dst) == Named(c, ev)
  {
    var c := Run(Fresh(), evs);
    RunKeepsEnds(Fresh(), evs);
    hide SentBy, Named, Run, IsRun, Enabled;
    if ev.DoSegment? { SegmentEnds(c, ev); } else { EventEnds(c, ev); }
  }

  // ---- Resets ----

  /** Which segments draw a reset. */
  predicate DrawsReset(p: Pcb, s: Segment) {
    || (p.state.Closed? && !s.flags.rst)
    || (p.state.Listen? && s.flags.ack && !s.flags.rst)
    || (p.state.SynSent? && s.flags.ack && !(p.iss < s.ack <= p.sndNxt))
    || (p.state.SynReceived? && Processed(p, s) && !(p.sndUna <= s.ack <= p.sndNxt))
  }

  lemma AckDrawsReset(p: Pcb, s: Segment, local: Endpoint, foreign: Endpoint, destroyed: bool)
    requires Processed(p, s)
    ensures var r := AckPhase(p, s, local, foreign, destroyed);
            if DrawsReset(p, s) then r == Stop(p, [Packet(local, foreign, Segment(s.ack, 0, RST, 0, []))])
            else r.Stop? ==> forall k :: k in r.sent ==> !k.seg.flags.rst
  {
    hide Cleanup;
  }

  lemma OtherDrawsReset(p: Pcb, s: Segment, local: Endpoint, foreign: Endpoint, destroyed: bool)
    requires !p.state.Closed? && !p.state.Listen? && !p.state.SynSent?
    requires ArrivesOther(p, s, local, foreign, destroyed).Done?
    ensures var r := ArrivesOther(p, s, local, foreign, destroyed);
            if DrawsReset(p, s) then r == Done(p, [Packet(local, foreign, Segment(s.ack, 0, RST, 0, []))])
            else forall k :: k in r.sent ==> !k.seg.flags.rst
  {
    hide AckPhase, TextPhase, FinPhase, Acceptable;
    if Processed(p, s) {
      AckDrawsReset(p, s, local, foreign, destroyed);
      var a := AckPhase(p, s, local, foreign, destroyed);
      if a.Go? { TextAndFinEnds(a.pcb, s); }
    }
  }

  /**
   * A reset goes back to where the segment came from, and the PCB stays as it is. It carries the acknowledgement as its
   * sequence number, or acknowledges a segment that has none.
   */
  lemma ResetIff(p: Pcb, s: Segment, local: Endpoint, foreign: Endpoint, iss: u32, now: Timeval, destroyed: bool)
    requires Arrives(p, s, local, foreign, iss, now, destroyed).Done?
    ensures var r := Arrives(p, s, local, foreign, iss, now, destroyed);
            && ((exists k :: k in r.sent && k.seg.flags.rst) <==> DrawsReset(p, s))
            && (DrawsReset(p, s) ==>
                  && r.pcb == p
                  && r.sent == [Packet(local, foreign,
                                       if s.flags.ack then Segment(s.ack, 0, RST, 0, [])
                                       else Segment(0, U32(s.seqno + SegLen(s)), RST_ACK, 0, []))])
  {
    hide Cleanup, ArrivesOther;
    var r := Arrives(p, s, local, foreign, iss, now, destroyed);
    if DrawsReset(p, s) {
      if p.state.SynReceived? { OtherDrawsReset(p, s, local, foreign, destroyed); }
      assert r.sent[0] in r.sent && r.sent[0].seg.flags.rst;
    } else if !p.state.Closed? && !p.state.Listen? && !p.state.SynSent? {
      OtherDrawsReset(p, s, local, foreign, destroyed);
    }
  }

  /** A reset is answered by a reset exactly when it carries a wrong acknowledgement before ESTABLISHED. */
  lemma ResetForResetIff(p: Pcb, s: Segment, local: Endpoint, foreign: Endpoint, iss: u32, now: Timeval,
                         destroyed: bool)
    requires s.flags.rst && Arrives(p, s, local, foreign, iss, now, destroyed).Done?
    ensures (exists k :: k in Arrives(p, s, local, foreign, iss, now, destroyed).sent && k.seg.flags.rst) <==>
            || (p.state.SynSent? && s.flags.ack && (s.ack <= p.iss || s.ack > p.sndNxt))
            || (p.state.SynReceived? && Processed(p, s) && (s.ack < p.sndUna || s.ack > p.sndNxt))
  {
    hide Arrives, Acceptable;
    ResetIff(p, s, local, foreign, iss, now, destroyed);
  }

  /** An active open that is answered by a reset with acknowledgement number 0 sends a reset back. */
  lemma ResetForResetIsReached(local: Endpoint, foreign: Endpoint, iss: u32, now: Timeval)
    requires iss < TWO31 && Normal(now)
    ensures var evs := [DoOpenActive(local, foreign, iss, now, true, true)];
            && IsRun(Fresh(), evs)
            && var ev := DoSegment(Segment(0, 0, RST_ACK, 0, []), local, foreign, iss, now, true);
               && Enabled(Run(Fresh(), evs), ev)
               && SentBy(Run(Fresh(), evs), ev) == [Packet(local, foreign, Segment(0, 0, RST, 0, []))]
  {
    var open := DoOpenActive(local, foreign, iss, now, true, true);
    var c := Apply(Fresh(), open);
    assert [open][1..] == [] && Run(c, []) == c;
    ResetIff(c.pcb, Segment(0, 0, RST_ACK, 0, []), local, foreign, iss, now, true);
  }

  // ---- Acknowledgements in answer ----

  predicate OpenForAcks(st: State) { st.Established? || st.FinWait1? || st.FinWait2? || st.CloseWait? }

  /** A segment outside the window, unless it is a reset, or one that acknowledges what was never sent. */
  predicate DrawsAck(p: Pcb, s: Segment) {
    || (!Acceptable(p, s) && !s.flags.rst)
    || (OpenForAcks(p.state) && Processed(p, s) && s.ack >= p.sndUna && s.ack > p.sndNxt)
  }

  /** Such a segment changes nothing, and the answer repeats where the connection stands. */
  lemma StandsAnswered(p: Pcb, s: Segment, local: Endpoint, foreign: Endpoint, iss: u32, now: Timeval, destroyed: bool)
    requires !p.state.Closed? && !p.state.Listen? && !p.state.SynSent? && DrawsAck(p, s)
    ensures Arrives(p, s, local, foreign, iss, now, destroyed) ==
            Done(p, [Packet(p.local, p.foreign, Segment(p.sndNxt, p.rcvNxt, ACK, p.rcvWnd, []))])
  {
    hide Acceptable, Cleanup, TextPhase, FinPhase;
  }

  /** A window is taken exactly when its segment acknowledges something new and is not older than the last one taken. */
  predicate TakesWindow(p: Pcb, s: Segment) {
    && Processed(p, s) && p.sndUna < s.ack <= p.sndNxt
    && (p.wl1 < s.seqno || (p.wl1 == s.seqno && p.wl2 <= s.ack))
  }

  predicate SameWindow(p: Pcb, p': Pcb) { p'.sndWnd == p.sndWnd && p'.wl1 == p.wl1 && p'.wl2 == p.wl2 }

  lemma TextAndFinKeepWindow(p: Pcb, s: Segment)
    requires TextPhase(p, s).Done?
    ensures SameWindow(p, FinPhase(TextPhase(p, s).pcb, s).pcb)
  {
    hide Splice, Emit;
  }

  lemma WindowTakenIff(p: Pcb, s: Segment, local: Endpoint, foreign: Endpoint, iss: u32, now: Timeval, destroyed: bool)
    requires OpenForAcks(p.state) && Arrives(p, s, local, foreign, iss, now, destroyed).Done?
    ensures var p' := Arrives(p, s, local, foreign, iss, now, destroyed).pcb;
            if TakesWindow(p, s) then p'.sndWnd == s.wnd && p'.wl1 == s.seqno && p'.wl2 == s.ack
            else SameWindow(p, p')
  {
    hide Acceptable, Cleanup, TextPhase, FinPhase, Emit;
    if Processed(p, s) {
      var a := AckPhase(p, s, local, foreign, destroyed);
      if a.Go? { TextAndFinKeepWindow(a.pcb, s); }
    }
  }

  // ---- Simultaneous open ----

  /** What one of two endpoints does and hears when both open actively and their SYNs cross. */
  function Crossing(local: Endpoint, foreign: Endpoint, iss: u32, peer: u32, now: Timeval): seq<Event>
    requires iss < TWO31 && peer < TWO31
  {
    [DoOpenActive(local, foreign, iss, now, true, true),
     DoSegment(Segment(peer, 0, SYN, BUF_SIZE, []), local, foreign, iss, now, true),
     DoSegment(Segment(peer, iss + 1, SYN_ACK, BUF_SIZE, []), local, foreign, iss, now, true),
     DoSegment(Segment(peer + 1, iss + 1, ACK, BUF_SIZE, []), local, foreign, iss, now, true)]
  }

  /** The PCB after the first `i` of these events. */
  function Crossed(local: Endpoint, foreign: Endpoint, iss: u32, peer: u32, now: Timeval, i: nat): Pcb
    requires iss < TWO31 && peer < TWO31
  {
    var syn := Entry(now, now, DEFAULT_RTO, iss, SYN, []);
    var p := ZeroPcb().(state := SynSent, local := local, foreign := foreign, iss := iss, sndUna := iss,
                        sndNxt := iss + 1, rcvWnd := BUF_SIZE, queue := [syn]);
    if i == 0 then ZeroPcb()
    else if i == 1 then p
    else if i <= 3 then
      p.(state := SynReceived, irs := peer, rcvNxt := peer + 1, queue := [syn, syn.(flags := SYN_ACK)])
    else
      p.(state := Established, irs := peer, rcvNxt := peer + 1, queue := [], sndUna := iss + 1, sndWnd := BUF_SIZE,
         wl1 := peer + 1, wl2 := iss + 1)
  }

  lemma CrossingSyn(local: Endpoint, foreign: Endpoint, iss: u32, peer: u32, now: Timeval)
    requires iss < TWO31 && peer < TWO31
    ensures Arrives(Crossed(local, foreign, iss, peer, now, 1), Segment(peer, 0, SYN, BUF_SIZE, []), local, foreign,
                    iss, now, true) ==
            Done(Crossed(local, foreign, iss, peer, now, 2),
                 [Packet(local, foreign, Segment(iss, peer + 1, SYN_ACK, BUF_SIZE, []))])
  {
    hide Cleanup;
  }

  lemma CrossingSynAck(local: Endpoint, foreign: Endpoint, iss: u32, peer: u32, now: Timeval)
    requires iss < TWO31 && peer < TWO31
    ensures Arrives(Crossed(local, foreign, iss, peer, now, 2), Segment(peer, iss + 1, SYN_ACK, BUF_SIZE, []), local,
                    foreign, iss, now, true) ==
            Done(Crossed(local, foreign, iss, peer, now, 3),
                 [Packet(local, foreign, Segment(iss + 1, peer + 1, ACK, BUF_SIZE, []))])
  {
    hide Cleanup, AckPhase, TextPhase, FinPhase;
  }

  /** The last acknowledgement covers both entries of the queue. */
  lemma CrossingAck(local: Endpoint, foreign: Endpoint, iss: u32, peer: u32, now: Timeval)
    requires iss < TWO31 && peer < TWO31
    ensures Arrives(Crossed(local, foreign, iss, peer, now, 3), Segment(peer + 1, iss + 1, ACK, BUF_SIZE, []), local,
                    foreign, iss, now, true) ==
            Done(Crossed(local, foreign, iss, peer, now, 4), [])
  {
    var q := Crossed(local, foreign, iss, peer, now, 3).queue;
    assert q[1..] == [q[1]] && [q[1]][1..] == [];
    assert Cleanup([q[1]], iss + 1) == Cleanup([], iss + 1);
    assert Cleanup(q, iss + 1) == [];
    hide Cleanup;
  }

  lemma CrossingStep(local: Endpoint, foreign: Endpoint, iss: u32, peer: u32, now: Timeval, c: Conn, i: nat)
    requires iss < TWO31 && peer < TWO31 && Normal(now) && i < 4
    requires c.pcb == Crossed(local, foreign, iss, peer, now, i)
    ensures var mine, other := Crossing(local, foreign, iss, peer, now), Crossing(foreign, local, peer, iss, now);
            && Enabled(c, mine[i]) && Apply(c, mine[i]).pcb == Crossed(local, foreign, iss, peer, now, i + 1)
            && SentBy(c, mine[i]) == (if i < 3 then [Packet(local, foreign, other[i + 1].seg)] else [])
  {
    hide Arrives;
    CrossingSyn(local, foreign, iss, peer, now);
    CrossingSynAck(local, foreign, iss, peer, now);
    CrossingAck(local, foreign, iss, peer, now);
  }

  lemma {:induction false} CrossingRuns(local: Endpoint, foreign: Endpoint, iss: u32, peer: u32, now: Timeval, i: nat)
    requires iss < TWO31 && peer < TWO31 && Normal(now) && i <= 4
    ensures var mine := Crossing(local, foreign, iss, peer, now);
            && IsRun(Fresh(), mine[..i])
            && Run(Fresh(), mine[..i]).pcb == Crossed(local, foreign, iss, peer, now, i)
  {
    var mine := Crossing(local, foreign, iss, peer, now);
    if i == 0 {
    } else {
      CrossingRuns(local, foreign, iss, peer, now, i - 1);
      hide Enabled, Apply, Crossed, Crossing;
      var c := Run(Fresh(), mine[..i - 1]);
      CrossingStep(local, foreign, iss, peer, now, c, i - 1);
      RunCons(c, mine[i - 1], []);
      assert [mine[i - 1]] + [] == [mine[i - 1]];
      RunJoin(Fresh(), mine[..i - 1], [mine[i - 1]]);
      assert mine[..i] == mine[..i - 1] + [mine[i - 1]];
    }
  }

  /**
   * Crossing SYNs establish the connection, as Figure 8 of RFC 793 shows: at each step an endpoint sends exactly the
   * segment that the other one hears next, and at the end both are established with nothing left to repeat.
   */
  lemma SimultaneousOpen(local: Endpoint, foreign: Endpoint, iss: u32, peer: u32, now: Timeval, i: nat)
    requires iss < TWO31 && peer < TWO31 && Normal(now) && i < 4
    ensures var mine, other := Crossing(local, foreign, iss, peer, now), Crossing(foreign, local, peer, iss, now);
            && IsRun(Fresh(), mine[..i]) && Enabled(Run(Fresh(), mine[..i]), mine[i])
            && SentBy(Run(Fresh(), mine[..i]), mine[i]) ==
               (if i < 3 then [Packet(local, foreign, other[i + 1].seg)] else [])
            && IsRun(Fresh(), mine)
            && var p := Run(Fresh(), mine).pcb;
               && p.state.Established? && p.queue == [] && p.sndUna == p.sndNxt == iss + 1 && p.rcvNxt == peer + 1
               && p.sndWnd == p.rcvWnd == BUF_SIZE
  {
    hide Enabled, Apply, SentBy, IsRun, Run;
    var mine := Crossing(local, foreign, iss, peer, now);
    CrossingRuns(local, foreign, iss, peer, now, i);
    CrossingStep(local, foreign, iss, peer, now, Run(Fresh(), mine[..i]), i);
    CrossingRuns(local, foreign, iss, peer, now, 4);
    assert mine[..4] == mine;
  }

  // ---- tcp_send ----

  lemma OtherKeepsEnds(p: Pcb, ev: Event)
    requires CanSend(p) || Past(p.state)
    ensures CanSend(Other(p, ev).pcb) ==> Other(p, ev).pcb.local == p.local && Other(p, ev).pcb.foreign == p.foreign
  {
    if ev.DoSegment? {
      var r := Arrives(p, ev.seg, ev.local, ev.foreign, ev.iss, ev.now, ev.destroyed);
      if r.Done? && !p.state.Closed? { OtherSegmentEnds(p, ev); }
    }
  }

  lemma {:induction false} OthersKeepEnds(p: Pcb, evs: seq<Event>)
    requires CanSend(p) || Past(p.state)
    ensures CanSend(Others(p, evs).pcb) ==>
              CanSend(p) && Others(p, evs).pcb.local == p.local && Others(p, evs).pcb.foreign == p.foreign
    decreases |evs|
  {
    if evs == [] {
    } else {
      OtherUndisturbed(p, evs[0]);
      OtherKeepsEnds(p, evs[0]);
      hide Other;
      OthersKeepEnds(Other(p, evs[0]).pcb, evs[1..]);
    }
  }

  lemma {:induction false} SendCallBetween(p: Pcb, data: seq<byte>, sent: nat, mtu: Option<u16>, turns: seq<Turn>)
    requires sent <= |data| && (CanSend(p) || Past(p.state))
    ensures forall k :: k in SendCall(p, data, sent, mtu, turns).emitted ==> k.src == p.local && k.dst == p.foreign
    decreases |turns|
  {
    if !CanSend(p) || mtu.None? || sent == |data| || turns == [] {
    } else {
      var t := turns[0];
      if Capacity(p) == 0 {
        OthersKeepEnds(p, t.events);
        OthersUndisturbed(p, t.events);
        if !t.interrupted { SendCallBetween(Others(p, t.events).pcb, data, sent, mtu, turns[1..]); }
      } else if t.ok {
        var slen := TurnLength(p, data, sent, mtu.value);
        SendCallBetween(SendText(p, data[sent..sent + slen], t.now, true, t.destroyed).pcb, data, sent + slen, mtu,
                     turns[1..]);
      }
    }
  }

  /** Every segment of a tcp_send on a reachable connection runs between the endpoints that its open named. */
  lemma SendRunsBetweenItsEndpoints(evs: seq<Event>, data: seq<byte>, mtu: Option<u16>, turns: seq<Turn>, k: Packet)
    requires IsRun(Fresh(), evs) && CanSend(Run(Fresh(), evs).pcb)
    requires k in SendCall(Run(Fresh(), evs).pcb, data, 0, mtu, turns).emitted
    ensures k.src == Run(Fresh(), evs).here && k.dst == Run(Fresh(), evs).there
  {
    RunKeepsEnds(Fresh(), evs);
    SendCallBetween(Run(Fresh(), evs).pcb, data, 0, mtu, turns);
  }
}
