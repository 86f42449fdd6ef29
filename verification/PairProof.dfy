/** Every action of either endpoint keeps the two directions of the connection linked. */
module PairProof {
  import opened Base
  import opened Time
  import opened Tcp
  import opened Link
  import opened TcpPair
  import TcpRun
  import Retransmit

  /** The bare acknowledgement a PCB sends. */
  function AckSeg(p: Pcb): Segment { Segment(p.sndNxt, p.rcvNxt, ACK, p.rcvWnd, []) }

  predicate Reset(m: Segment) {
    m.flags.rst && m.text == [] && !m.flags.syn && !m.flags.fin && (m.flags.ack ==> m.seqno == 0)
  }

  // ---- The direction a segment arrives on ----

  lemma RecvQuiet(y: Side, x: Side, x': Side, yx: seq<Segment>, xy: seq<Segment>, passive: bool)
    requires Half(y, x, yx, xy, passive) && Started(y) && yx != []
    requires x'.last.rcvNxt == x.last.rcvNxt && x'.last.rcvWnd == x.last.rcvWnd && x'.last.sndNxt == x.last.sndNxt
    requires DataLink(TxOf(y, passive), RxOf(x'), Live(x'), yx[1..])
    ensures Half(y, x', yx[1..], xy, passive)
  {
  }

  lemma RecvReset(y: Side, x: Side, yx: seq<Segment>, xy: seq<Segment>, passive: bool, m: Segment)
    requires Half(y, x, yx, xy, passive) && Reset(m)
    ensures Half(y, x, yx, xy + [m], passive)
  {
    if Started(y) {
      AckSkip(TxOf(y, passive), SwOf(y), RxOf(x), x.last.sndNxt, xy, m, x.last.sndNxt);
      TileNoise(y.last.queue, y.last.sndUna, y.last.sndNxt, x.last.rcvNxt, yx, xy, m);
    }
  }

  lemma RecvAck(y: Side, x: Side, x': Side, yx: seq<Segment>, xy: seq<Segment>, passive: bool, m: Segment)
    requires Half(y, x, yx, xy, passive) && Started(y) && yx != []
    requires DataLink(TxOf(y, passive), RxOf(x'), Live(x'), yx[1..])
    requires Carries(m) && m.ack == x'.last.rcvNxt && m.wnd == x'.last.rcvWnd
    requires x'.last.rcvNxt > 0 && x.last.rcvNxt <= x'.last.rcvNxt && RxOf(x).Edge() <= RxOf(x').Edge()
    requires x.last.sndNxt <= x'.last.sndNxt && m.seqno <= x'.last.sndNxt
    requires x.last.rcvNxt < x'.last.rcvNxt ==> x.last.sndNxt <= m.seqno
    requires Seam(y.last.queue, y.last.sndNxt, x'.last.rcvNxt) && y.last.sndUna <= x'.last.rcvNxt
    ensures Half(y, x', yx[1..], xy + [m], passive)
  {
    AckEmit(TxOf(y, passive), SwOf(y), RxOf(x), x.last.sndNxt, xy, RxOf(x'), x'.last.sndNxt, m);
    TilePop(y.last.queue, y.last.sndUna, y.last.sndNxt, x.last.rcvNxt, yx, xy, yx[1..], xy);
    TileAdvance(y.last.queue, y.last.sndUna, y.last.sndNxt, x.last.rcvNxt, yx[1..], xy, x'.last.rcvNxt, m);
  }

  // ---- The direction a segment acknowledges ----

  predicate SameTx(x: Side, x': Side) {
    && x'.last.iss == x.last.iss && x'.stream == x.stream && x'.fin == x.fin
    && x'.last.sndNxt == x.last.sndNxt
  }

  lemma SendHear(x: Side, x': Side, y: Side, xy: seq<Segment>, yx: seq<Segment>, passive: bool)
    requires Half(x, y, xy, yx, passive) && Started(x) && yx != []
    requires SameTx(x, x') && x'.last.queue == x.last.queue && SwOf(x') == Hear(SwOf(x), yx[0])
    ensures Half(x', y, xy, yx[1..], passive)
  {
    AckHear(TxOf(x, passive), SwOf(x), RxOf(y), y.last.sndNxt, yx);
    TilePop(x.last.queue, x.last.sndUna, x.last.sndNxt, y.last.rcvNxt, xy, yx, xy, yx[1..]);
  }

  lemma SendTake(x: Side, x': Side, y: Side, xy: seq<Segment>, yx: seq<Segment>, passive: bool)
    requires Half(x, y, xy, yx, passive) && Started(x) && yx != []
    requires Carries(yx[0]) && x.last.sndUna < yx[0].ack
    requires SameTx(x, x') && x'.last.queue == Cleanup(x.last.queue, yx[0].ack)
    requires SwOf(x') == TakeWindow(Hear(SwOf(x), yx[0]), yx[0])
    ensures Half(x', y, xy, yx[1..], passive)
  {
    var m := yx[0];
    var tx := TxOf(x, passive);
    AckTake(tx, SwOf(x), RxOf(y), y.last.sndNxt, yx);
    WindowsAgree(tx, SwOf(x'), RxOf(y), y.last.sndNxt, yx[1..]);
    assert m in yx;
    TileAck(x.last.queue, x.last.sndUna, x.last.sndNxt, y.last.rcvNxt, xy, yx, m.ack);
    TilePop(x'.last.queue, m.ack, x.last.sndNxt, y.last.rcvNxt, xy, yx, xy, yx[1..]);
    var k := Retransmit.CleanupSuffix(x.last.queue, m.ack);
  }

  /** A change that does not touch the sending side. */
  lemma SendFrame(x: Side, x': Side, y: Side, xy: seq<Segment>, yx: seq<Segment>, passive: bool)
    requires Half(x, y, xy, yx, passive) && Started(x)
    requires SameTx(x, x') && SwOf(x') == SwOf(x) && x'.last.queue == x.last.queue
    ensures Half(x', y, xy, yx, passive)
  {
  }

  /** Appending an answer to what a side has in flight. */
  lemma SendAnswer(x: Side, y: Side, xy: seq<Segment>, yx: seq<Segment>, passive: bool, m: Segment)
    requires Half(x, y, xy, yx, passive)
    requires Reset(m) || (m == AckSeg(x.last) && Started(x) && (Synced(y) || passive))
    requires Started(x) ==> x.last.iss < x.last.sndNxt
    ensures Half(x, y, xy + [m], yx, passive)
  {
    if Started(x) {
      DataRepeat(TxOf(x, passive), RxOf(y), Live(y), xy, m);
      TileNoise(x.last.queue, x.last.sndUna, x.last.sndNxt, y.last.rcvNxt, xy, yx, m);
    }
  }

  // ---- Resets, and segments for an endpoint that has closed ----

  predicate Resets(out: seq<Segment>) { out == [] || (|out| == 1 && Reset(out[0])) }

  lemma DeadRecv(y: Side, x: Side, x': Side, yx: seq<Segment>, xy: seq<Segment>, passive: bool)
    requires Half(y, x, yx, xy, passive) && yx != [] && x' == HearOn(x, yx[0])
    requires !Live(x) || !Plain(yx[0])
    ensures Half(y, x', yx[1..], xy, passive)
  {
    if Started(y) {
      DataPop(TxOf(y, passive), RxOf(x), Live(x), yx);
      RecvQuiet(y, x, x', yx, xy, passive);
    }
  }

  lemma DeadSend(x: Side, x': Side, y: Side, xy: seq<Segment>, yx: seq<Segment>, passive: bool)
    requires Half(x, y, xy, yx, passive) && yx != [] && x' == HearOn(x, yx[0])
    ensures Half(x', y, xy, yx[1..], passive)
  {
    if Started(x) {
      SendHear(x, x', y, xy, yx, passive);
    } else {
      assert yx[0] in yx;
    }
  }

  /** Hearing a segment without using it. */
  lemma HearFrame(x: Side, m: Segment, y: Side, passive: bool)
    requires SideOk(x, passive) && Phase(y, x) && Phase(x, y) && (!Live(x) || !Plain(m))
    ensures SideOk(HearOn(x, m), passive) && Phase(HearOn(x, m), y) && Phase(y, HearOn(x, m))
  {
  }

  lemma DeadHalves(x: Side, x': Side, y: Side, xy: seq<Segment>, yx: seq<Segment>, passive: bool)
    requires Linked(x, y, xy, yx, passive) && yx != [] && x' == HearOn(x, yx[0])
    requires !Live(x) || !Plain(yx[0])
    ensures Linked(x', y, xy, yx[1..], passive)
  {
    HearFrame(x, yx[0], y, passive);
    DeadRecv(y, x, x', yx, xy, !passive);
    DeadSend(x, x', y, xy, yx, passive);
  }

  lemma AddResets(x: Side, y: Side, xy: seq<Segment>, yx: seq<Segment>, passive: bool, out: seq<Segment>)
    requires Linked(x, y, xy, yx, passive) && Resets(out)
    ensures Linked(x, y, xy + out, yx, passive)
  {
    hide SideOk, Phase;
    if out == [] {
      assert xy + out == xy;
    } else {
      assert out == [out[0]];
      RecvReset(y, x, yx, xy, !passive, out[0]);
      SendAnswer(x, y, xy, yx, passive, out[0]);
    }
  }

  lemma ClosedAnswersReset(m: Segment, local: Endpoint, foreign: Endpoint)
    ensures Resets(Segs(ClosedReply(m, local, foreign)))
  {
  }

  /** A reset changes nothing in any state; the source has no reset processing. */
  lemma ResetIgnored(p: Pcb, m: Segment, act: Action)
    requires Reset(m) && act.Deliver? && !p.state.Free?
    requires p.state.Listen? || p.state.SynSent? || p.state.Closed? || p.rcvNxt > 0
    ensures var r := Arrives(p, m, act.local, act.foreign, act.iss, act.now, act.destroyed);
            r.Done? && r.pcb == p && Resets(Segs(r.sent))
  {
  }

  /** What a delivery that leaves the PCB alone does to the network. */
  lemma DeliverUnchanged(x: Side, yx: seq<Segment>, xy: seq<Segment>, act: Action, sent: seq<Packet>)
    requires act.Deliver? && yx != [] && (x.pcb == x.last || x.pcb.state.Free?)
    requires if x.pcb.state.Free? then sent == ClosedReply(yx[0], act.local, act.foreign)
             else Arrives(x.pcb, yx[0], act.local, act.foreign, act.iss, act.now, act.destroyed) == Done(x.pcb, sent)
    ensures DoDeliver(Move(x, yx, xy), act) == Move(HearOn(x, yx[0]), yx[1..], xy + Segs(sent))
  {
  }

  lemma DeliverNoise(x: Side, y: Side, xy: seq<Segment>, yx: seq<Segment>, passive: bool, act: Action)
    requires Linked(x, y, xy, yx, passive) && act.Deliver? && yx != []
    requires !Live(x) || !Plain(yx[0])
    ensures var v := DoDeliver(Move(x, yx, xy), act);
            Linked(v.me, y, v.outbox, v.inbox, passive)
  {
    hide Phase;
    var m := yx[0];
    var sent := ClosedReply(m, act.local, act.foreign);
    if Live(x) {
      assert Reset(m) by { assert m in yx; }
      ResetIgnored(x.pcb, m, act);
      sent := Arrives(x.pcb, m, act.local, act.foreign, act.iss, act.now, act.destroyed).sent;
    } else {
      ClosedAnswersReset(m, act.local, act.foreign);
    }
    DeliverUnchanged(x, yx, xy, act, sent);
    DeadHalves(x, HearOn(x, m), y, xy, yx, passive);
    AddResets(HearOn(x, m), y, xy, yx[1..], passive, Segs(sent));
  }

  // ---- Segments in a synchronised state ----

  /** The peer's sequence space, the receiver's place in it, and the segment at the head of the channel. */
  ghost predicate Incoming(tx: Tx, p: Pcb, m: Segment) {
    && tx.iss < TWO31 && |tx.stream| <= MAX_OCTETS
    && tx.iss < p.rcvNxt <= tx.Nxt() && tx.Limit() <= p.rcvNxt + p.rcvWnd
    && Plain(m) && Genuine(tx, m) && Fits(Min(p.rcvNxt, tx.Limit()), tx.FinAt(), m)
  }

  predicate Accepts(st: State) {
    st.SynReceived? || st.Established? || st.FinWait1? || st.FinWait2? || st.CloseWait? || st.LastAck?
  }

  /** The sequence number check without wrap-around. */
  predicate Checked(p: Pcb, m: Segment) {
    && Accepts(p.state)
    && if FullSpan(m) == 0 then
         if p.rcvWnd == 0 then m.seqno == p.rcvNxt else p.rcvNxt <= m.seqno < p.rcvNxt + p.rcvWnd
       else
         && p.rcvWnd != 0
         && (p.rcvNxt <= m.seqno < p.rcvNxt + p.rcvWnd
             || p.rcvNxt <= m.seqno + FullSpan(m) - 1 < p.rcvNxt + p.rcvWnd)
  }

  lemma Unwrapped(tx: Tx, p: Pcb, m: Segment)
    requires Incoming(tx, p, m)
    ensures p.rcvNxt + p.rcvWnd < TWO32 && m.seqno + FullSpan(m) < TWO32 && FullSpan(m) < TWO16
  {
  }

  /** Within the bounds on initial sequence number and stream length the 32-bit comparisons are exact. */
  lemma CheckIsExact(tx: Tx, p: Pcb, m: Segment)
    requires Incoming(tx, p, m)
    ensures Acceptable(p, m) <==> Checked(p, m)
  {
    hide Incoming, FullSpan, SegLen, U32;
    Unwrapped(tx, p, m);
    LengthIsSpan(m);
    Unwrap(p.rcvNxt + p.rcvWnd);
    if FullSpan(m) > 0 { Unwrap(m.seqno + FullSpan(m) - 1); }
  }

  lemma LengthIsSpan(m: Segment)
    requires FullSpan(m) < TWO16
    ensures SegLen(m) == FullSpan(m)
  {
  }

  lemma Unwrap(x: int)
    requires 0 <= x < TWO32
    ensures U32(x) == x
  {
  }

  /**
   * What is acceptable starts at RCV.NXT; only a bare acknowledgement can be one ahead, past a FIN that found no room.
   * New text always fits.
   */
  lemma WhenChecked(tx: Tx, p: Pcb, m: Segment)
    requires Incoming(tx, p, m) && Checked(p, m)
    ensures m.flags.ack && !m.flags.syn && m.seqno >= p.rcvNxt
    ensures m.text != [] ==> m.seqno == p.rcvNxt && |m.text| <= p.rcvWnd && p.rcvNxt < tx.Limit() && !m.flags.fin
    ensures m.flags.fin ==> m.seqno == p.rcvNxt == tx.Limit()
    ensures m.seqno == p.rcvNxt || (m.seqno == p.rcvNxt + 1 && p.rcvNxt == tx.Limit() && tx.fin && p.rcvWnd >= 2)
  {
  }

  lemma WhenAccepted(tx: Tx, p: Pcb, m: Segment)
    requires Incoming(tx, p, m) && Acceptable(p, m)
    ensures m.flags.ack && !m.flags.syn && m.seqno >= p.rcvNxt
    ensures m.text != [] ==> m.seqno == p.rcvNxt && |m.text| <= p.rcvWnd && p.rcvNxt < tx.Limit() && !m.flags.fin
    ensures m.flags.fin ==> m.seqno == p.rcvNxt == tx.Limit()
    ensures m.seqno == p.rcvNxt || (m.seqno == p.rcvNxt + 1 && p.rcvNxt == tx.Limit() && tx.fin && p.rcvWnd >= 2)
  {
    CheckIsExact(tx, p, m);
    WhenChecked(tx, p, m);
  }

  /** What is not acceptable is a repetition, or meets a window without room for it. */
  lemma WhenRejected(tx: Tx, p: Pcb, m: Segment)
    requires Incoming(tx, p, m) && Accepts(p.state) && !Acceptable(p, m)
    ensures Advance(Min(p.rcvNxt, tx.Limit()), m) == Min(p.rcvNxt, tx.Limit())
    ensures m.seqno < p.rcvNxt || p.rcvWnd < 2
  {
    CheckIsExact(tx, p, m);
  }

  /** In CLOSING and TIME-WAIT the peer's FIN has been taken and nothing new can come. */
  lemma WhenAllTaken(tx: Tx, p: Pcb, m: Segment)
    requires Incoming(tx, p, m) && p.rcvNxt > tx.Limit()
    ensures Advance(Min(p.rcvNxt, tx.Limit()), m) == Min(p.rcvNxt, tx.Limit())
  {
  }

  function StateAfter(p: Pcb, m: Segment): State {
    var st := if p.state.SynReceived? then Established else p.state;
    var st1 := if st.FinWait1? && m.ack == p.sndNxt then FinWait2 else st;
    if !m.flags.fin then st1
    else if st1.Established? then CloseWait
    else if st1.FinWait1? then Closing
    else if st1.FinWait2? then TimeWait
    else st1
  }

  predicate TakesAcks(st: State) {
    st.SynReceived? || st.Established? || st.FinWait1? || st.FinWait2? || st.CloseWait?
  }

  /** A processed segment of this kind, and an ACK field that takes the window when it acknowledges something new. */
  predicate Regular(p: Pcb, m: Segment) {
    && TakesAcks(p.state) && !m.flags.syn && (m.flags.fin ==> m.text == [])
    && |m.text| <= MAX_TEXT && |m.text| <= p.rcvWnd && m.seqno + MAX_TEXT < TWO32
    && (m.text != [] ==> !p.state.CloseWait?)
    && p.iss <= p.sndUna && p.iss < m.ack <= p.sndNxt && (p.state.SynReceived? ==> p.sndUna == p.iss)
    && (p.sndUna < m.ack ==> p.wl1 < m.seqno || (p.wl1 == m.seqno && p.wl2 <= m.ack))
  }

  /** The PCB after the ACK field. */
  function Acked(p: Pcb, m: Segment): Pcb {
    if p.sndUna < m.ack then
      p.(sndUna := m.ack, queue := Cleanup(p.queue, m.ack), sndWnd := m.wnd, wl1 := m.seqno, wl2 := m.ack)
    else p
  }

  lemma AckedIs(p: Pcb, m: Segment, local: Endpoint, foreign: Endpoint, destroyed: bool)
    requires Regular(p, m)
    ensures AckPhase(p, m, local, foreign, destroyed) ==
            Go(Acked(p, m).(state := StateAfter(p, m.(flags := ACK))))
  {
  }

  /** The PCB after text and FIN. */
  function Taken(p: Pcb, m: Segment): Pcb
    requires |m.text| <= p.rcvWnd
  {
    if m.text != [] then
      p.(buf := Splice(p.buf, BUF_SIZE - p.rcvWnd, m.text), rcvNxt := U32(m.seqno + |m.text|),
         rcvWnd := p.rcvWnd - |m.text|)
    else if m.flags.fin then p.(rcvNxt := U32(m.seqno + 1))
    else p
  }

  lemma TextIs(p: Pcb, m: Segment)
    requires m.text != [] && !m.flags.fin && !m.flags.syn && |m.text| <= p.rcvWnd && |m.text| <= MAX_TEXT
    requires p.state.Established? || p.state.FinWait1? || p.state.FinWait2?
    ensures TextPhase(p, m) == Done(Taken(p, m), [Emit(Taken(p, m), ACK, [])])
    ensures FinPhase(Taken(p, m), m) == Tcp.Step(Taken(p, m), [])
  {
  }

  lemma BareIs(p: Pcb, m: Segment)
    requires m.text == [] && !m.flags.fin
    ensures TextPhase(p, m) == Done(p, []) && FinPhase(p, m) == Tcp.Step(p, [])
  {
  }

  lemma FinIs(p: Pcb, m: Segment)
    requires m.text == [] && m.flags.fin && !p.state.Closed? && !p.state.Listen?
    ensures TextPhase(p, m) == Done(p, [])
    ensures FinPhase(p, m) == Tcp.Step(Taken(p, m).(state := FinState(p, m)), [Emit(Taken(p, m), ACK, [])])
  {
  }

  /** The PCB after a regular segment, in one piece, and the acknowledgement that is sent when anything was taken. */
  lemma RegularEffect(p: Pcb, m: Segment, act: Action)
    requires Regular(p, m) && Processed(p, m) && act.Deliver?
    ensures var r := Arrives(p, m, act.local, act.foreign, act.iss, act.now, act.destroyed);
            && r.Done?
            && r.pcb == Taken(Acked(p, m), m).(state := StateAfter(p, m))
            && Segs(r.sent) == if m.text == [] && !m.flags.fin then [] else [AckSeg(r.pcb)]
  {
    hide Arrives, AckPhase, TextPhase, FinPhase, Splice, Cleanup;
    TcpRun.InOrder(p, TcpRun.DoSegment(m, act.local, act.foreign, act.iss, act.now, act.destroyed));
    AckedIs(p, m, act.local, act.foreign, act.destroyed);
    var p1 := Acked(p, m).(state := StateAfter(p, m.(flags := ACK)));
    if m.text != [] {
      TextIs(p1, m);
    } else if m.flags.fin {
      FinIs(p1, m);
      assert FinState(p1, m) == StateAfter(p, m);
    } else {
      BareIs(p1, m);
    }
  }

  /** A live, synchronised endpoint with a plain segment at the head of its channel. */
  ghost predicate AtHead(x: Side, y: Side, xy: seq<Segment>, yx: seq<Segment>, passive: bool) {
    Linked(x, y, xy, yx, passive) && Live(x) && Synced(x) && yx != [] && Plain(yx[0])
  }

  lemma HeadFacts(x: Side, y: Side, xy: seq<Segment>, yx: seq<Segment>, passive: bool)
    requires AtHead(x, y, xy, yx, passive)
    ensures Started(x) && Started(y) && x.pcb == x.last && (Synced(y) || passive)
    ensures Incoming(TxOf(y, !passive), x.pcb, yx[0])
    ensures x.last.iss <= x.last.sndUna <= x.last.sndNxt && x.last.iss < x.last.sndNxt < TWO32 - MAX_TEXT
    ensures y.last.sndUna <= x.last.rcvNxt
    ensures Carries(yx[0]) ==> x.last.iss < yx[0].ack <= x.last.sndNxt && x.heard <= yx[0].ack
    ensures Carries(yx[0]) && x.heard < yx[0].ack ==> x.top <= yx[0].seqno
    ensures x.last.wl1 <= x.top && x.last.wl2 <= x.last.sndUna
  {
  }

  lemma HeadUnchanged(x: Side, y: Side, xy: seq<Segment>, yx: seq<Segment>, passive: bool)
    requires AtHead(x, y, xy, yx, passive) && !Acceptable(x.pcb, yx[0])
    ensures var x' := HearOn(x, yx[0]);
            && Half(y, x', yx[1..], xy + [AckSeg(x.pcb)], !passive)
            && Half(x', y, xy + [AckSeg(x.pcb)], yx[1..], passive)
  {
    HeadFacts(x, y, xy, yx, passive);
    var m, x', tx := yx[0], HearOn(x, yx[0]), TxOf(y, !passive);
    if Accepts(x.pcb.state) { WhenRejected(tx, x.pcb, m); } else { WhenAllTaken(tx, x.pcb, m); }
    DataPop(tx, RxOf(x), Live(x), yx);
    RecvAck(y, x, x', yx, xy, !passive, AckSeg(x.pcb));
    SendHear(x, x', y, xy, yx, passive);
    SendAnswer(x', y, xy, yx[1..], passive, AckSeg(x.pcb));
  }

  lemma RejectedSide(x: Side, y: Side, xy: seq<Segment>, yx: seq<Segment>, passive: bool)
    requires AtHead(x, y, xy, yx, passive) && !Acceptable(x.pcb, yx[0])
    ensures var x' := HearOn(x, yx[0]);
            SideOk(x', passive) && Phase(x', y) && Phase(y, x')
  {
    HeadFacts(x, y, xy, yx, passive);
    if Accepts(x.pcb.state) { WhenRejected(TxOf(y, !passive), x.pcb, yx[0]); }
  }

  lemma RejectedIs(p: Pcb, m: Segment, act: Action)
    requires act.Deliver? && Plain(m) && !Acceptable(p, m)
    requires !p.state.Closed? && !p.state.Listen? && !p.state.SynSent?
    ensures Arrives(p, m, act.local, act.foreign, act.iss, act.now, act.destroyed) == Done(p, [Emit(p, ACK, [])])
    ensures Segs([Emit(p, ACK, [])]) == [AckSeg(p)]
  {
  }

  lemma DeliverRejected(x: Side, y: Side, xy: seq<Segment>, yx: seq<Segment>, passive: bool, act: Action)
    requires AtHead(x, y, xy, yx, passive) && !Acceptable(x.pcb, yx[0]) && act.Deliver?
    ensures var v := DoDeliver(Move(x, yx, xy), act);
            Linked(v.me, y, v.outbox, v.inbox, passive)
  {
    HeadFacts(x, y, xy, yx, passive);
    HeadUnchanged(x, y, xy, yx, passive);
    RejectedSide(x, y, xy, yx, passive);
    RejectedIs(x.pcb, yx[0], act);
    DeliverUnchanged(x, yx, xy, act, [Emit(x.pcb, ACK, [])]);
  }

  // ---- Accepted segments ----

  lemma HeadIsRegular(x: Side, y: Side, xy: seq<Segment>, yx: seq<Segment>, passive: bool)
    requires AtHead(x, y, xy, yx, passive) && Acceptable(x.pcb, yx[0]) && !x.pcb.state.LastAck?
    ensures Regular(x.pcb, yx[0]) && Processed(x.pcb, yx[0])
  {
    HeadFacts(x, y, xy, yx, passive);
    WhenAccepted(TxOf(y, !passive), x.pcb, yx[0]);
  }

  /** The side after an accepted segment, field by field. */
  ghost predicate After(x: Side, x': Side, m: Segment) {
    && |m.text| <= x.last.rcvWnd
    && SameTx(x, x') && x'.pcb == x'.last && Live(x')
    && x'.got == x.got && x'.overrun == x.overrun
    && x'.last.state == StateAfter(x.pcb, m)
    && SwOf(x') == (if x.last.sndUna < m.ack then TakeWindow(Hear(SwOf(x), m), m) else Hear(SwOf(x), m))
    && x'.last.queue == (if x.last.sndUna < m.ack then Cleanup(x.last.queue, m.ack) else x.last.queue)
    && RxOf(x') == (if m.text != [] then
                      Rx(x.last.rcvNxt + |m.text|, x.last.rcvWnd - |m.text|, RxOf(x).copied + m.text)
                    else if m.flags.fin then RxOf(x).(nxt := x.last.rcvNxt + 1)
                    else RxOf(x))
  }

  lemma TakenBuffer(p: Pcb, m: Segment)
    requires |m.text| <= p.rcvWnd
    ensures Buffered(Taken(p, m)) == Buffered(p) + m.text
  {
  }

  lemma AfterIs(x: Side, x': Side, m: Segment)
    requires x.pcb == x.last && x.last.rcvNxt > 0 && Regular(x.pcb, m) && Carries(m)
    requires m.text != [] || m.flags.fin ==> m.seqno == x.last.rcvNxt
    requires x' == Put(HearOn(x, m), Taken(Acked(x.pcb, m), m).(state := StateAfter(x.pcb, m)))
    ensures After(x, x', m)
  {
    hide Splice, Cleanup;
    assert Acked(x.pcb, m).buf == x.pcb.buf && Acked(x.pcb, m).rcvWnd == x.pcb.rcvWnd;
    TakenBuffer(Acked(x.pcb, m), m);
    assert x.got + (Buffered(x.pcb) + m.text) == x.got + Buffered(x.pcb) + m.text;
  }

  /** The receiving direction after an accepted segment. */
  lemma RecvText(x: Side, x': Side, y: Side, xy: seq<Segment>, yx: seq<Segment>, passive: bool)
    requires Half(y, x, yx, xy, passive) && Started(y) && Live(x) && yx != [] && Carries(yx[0]) && x.last.rcvNxt > 0
    requires After(x, x', yx[0]) && yx[0].text != [] && yx[0].seqno == x.last.rcvNxt
    requires y.last.sndUna <= x.last.rcvNxt
    ensures Half(y, x', yx[1..], xy + [AckSeg(x'.last)], passive)
  {
    hide DataLink, AckLink, QueueGenuine;
    DataText(TxOf(y, passive), RxOf(x), yx);
    assert yx[0] in yx;
    RecvAck(y, x, x', yx, xy, passive, AckSeg(x'.last));
  }

  lemma RecvFin(x: Side, x': Side, y: Side, xy: seq<Segment>, yx: seq<Segment>, passive: bool)
    requires Half(y, x, yx, xy, passive) && Started(y) && Live(x) && yx != [] && Carries(yx[0]) && x.last.rcvNxt > 0
    requires After(x, x', yx[0]) && yx[0].text == [] && yx[0].flags.fin && yx[0].seqno == x.last.rcvNxt
    requires !yx[0].flags.syn && y.last.sndUna <= x.last.rcvNxt
    ensures Half(y, x', yx[1..], xy + [AckSeg(x'.last)], passive)
  {
    DataFin(TxOf(y, passive), RxOf(x), yx);
    assert yx[0] in yx;
    RecvAck(y, x, x', yx, xy, passive, AckSeg(x'.last));
  }

  lemma RecvBare(x: Side, x': Side, y: Side, xy: seq<Segment>, yx: seq<Segment>, passive: bool)
    requires Half(y, x, yx, xy, passive) && Started(y) && Live(x) && yx != [] && Carries(yx[0]) && x.last.rcvNxt > 0
    requires After(x, x', yx[0]) && FullSpan(yx[0]) == 0
    ensures Half(y, x', yx[1..], xy, passive)
  {
    DataPop(TxOf(y, passive), RxOf(x), Live(x), yx);
    RecvQuiet(y, x, x', yx, xy, passive);
  }

  function Reply(x': Side, m: Segment): seq<Segment> {
    if m.text == [] && !m.flags.fin then [] else [AckSeg(x'.last)]
  }

  lemma RegularRecv(x: Side, x': Side, y: Side, xy: seq<Segment>, yx: seq<Segment>, passive: bool)
    requires Half(y, x, yx, xy, passive) && Started(y) && Live(x) && x.pcb == x.last && yx != []
    requires Incoming(TxOf(y, passive), x.pcb, yx[0]) && Acceptable(x.pcb, yx[0])
    requires After(x, x', yx[0]) && y.last.sndUna <= x.last.rcvNxt
    ensures Half(y, x', yx[1..], xy + Reply(x', yx[0]), passive)
  {
    WhenAccepted(TxOf(y, passive), x.pcb, yx[0]);
    if yx[0].text != [] {
      RecvText(x, x', y, xy, yx, passive);
    } else if yx[0].flags.fin {
      RecvFin(x, x', y, xy, yx, passive);
    } else {
      RecvBare(x, x', y, xy, yx, passive);
      assert xy + [] == xy;
    }
  }

  /** The sending direction after an accepted segment. */
  lemma RegularSend(x: Side, x': Side, y: Side, xy: seq<Segment>, yx: seq<Segment>, passive: bool)
    requires Half(x, y, xy, yx, passive) && Started(x) && yx != [] && Carries(yx[0]) && After(x, x', yx[0])
    requires (Synced(y) || passive) && x.last.iss < x.last.sndNxt
    ensures Half(x', y, xy + Reply(x', yx[0]), yx[1..], passive)
  {
    hide Half, AckSeg;
    if x.last.sndUna < yx[0].ack {
      SendTake(x, x', y, xy, yx, passive);
    } else {
      SendHear(x, x', y, xy, yx, passive);
    }
    if yx[0].text == [] && !yx[0].flags.fin {
      assert xy + [] == xy;
    } else {
      SendAnswer(x', y, xy, yx[1..], passive, AckSeg(x'.last));
    }
  }

  lemma RegularSide(x: Side, x': Side, y: Side, m: Segment, passive: bool)
    requires SideOk(x, passive) && x.pcb == x.last && Live(x) && Synced(x) && Regular(x.pcb, m) && After(x, x', m)
    ensures SideOk(x', passive)
  {
  }

  lemma RegularPhase(x: Side, x': Side, y: Side, m: Segment, passive: bool)
    requires Phase(x, y) && Phase(y, x) && x.pcb == x.last && Live(x) && Synced(x)
    requires Regular(x.pcb, m) && After(x, x', m) && Carries(m)
    requires Incoming(TxOf(y, passive), x.pcb, m) && Acceptable(x.pcb, m)
    ensures Phase(x', y) && Phase(y, x')
  {
    WhenAccepted(TxOf(y, passive), x.pcb, m);
  }

  lemma DeliverIs(x: Side, yx: seq<Segment>, xy: seq<Segment>, act: Action)
    requires act.Deliver? && yx != [] && !x.pcb.state.Free?
    requires Regular(x.pcb, yx[0]) && Processed(x.pcb, yx[0])
    ensures var x' := Put(HearOn(x, yx[0]), Taken(Acked(x.pcb, yx[0]), yx[0]).(state := StateAfter(x.pcb, yx[0])));
            DoDeliver(Move(x, yx, xy), act) == Move(x', yx[1..], xy + Reply(x', yx[0]))
  {
    RegularEffect(x.pcb, yx[0], act);
  }

  lemma DeliverRegular(x: Side, y: Side, xy: seq<Segment>, yx: seq<Segment>, passive: bool, act: Action)
    requires AtHead(x, y, xy, yx, passive) && Acceptable(x.pcb, yx[0]) && !x.pcb.state.LastAck? && act.Deliver?
    ensures var v := DoDeliver(Move(x, yx, xy), act);
            Linked(v.me, y, v.outbox, v.inbox, passive)
  {
    hide Half, SideOk, Phase, DoDeliver;
    var m := yx[0];
    HeadFacts(x, y, xy, yx, passive);
    HeadIsRegular(x, y, xy, yx, passive);
    WhenAccepted(TxOf(y, !passive), x.pcb, m);
    DeliverIs(x, yx, xy, act);
    var x' := Put(HearOn(x, m), Taken(Acked(x.pcb, m), m).(state := StateAfter(x.pcb, m)));
    AfterIs(x, x', m);
    RegularRecv(x, x', y, xy, yx, !passive);
    RegularSend(x, x', y, xy, yx, passive);
    RegularSide(x, x', y, m, passive);
    RegularPhase(x, x', y, m, !passive);
  }

  // ---- LAST-ACK ----

  lemma LastAckIs(p: Pcb, m: Segment, act: Action)
    requires act.Deliver? && p.state.LastAck? && Processed(p, m)
    ensures var r := Arrives(p, m, act.local, act.foreign, act.iss, act.now, act.destroyed);
            && r.Done? && r.sent == []
            && (r.pcb == p || r.pcb == p.(state := Closed) || r.pcb == ZeroPcb())
  {
  }

  /** A side that closes, or whose slot is cleared, keeps everything else. */
  predicate Shuts(x: Side, x': Side) {
    && SameTx(x, x') && RxOf(x') == RxOf(x) && SwOf(x') == SwOf(x) && x'.last.queue == x.last.queue
    && (Live(x') ==> x' == x)
  }

  lemma ShutHalves(x: Side, x': Side, y: Side, xy: seq<Segment>, yx: seq<Segment>, passive: bool)
    requires Half(x, y, xy, yx, passive) && Half(y, x, yx, xy, !passive) && Shuts(x, x')
    ensures Half(x', y, xy, yx, passive) && Half(y, x', yx, xy, !passive)
  {
  }

  lemma ShutSide(x: Side, p: Pcb, y: Side, passive: bool)
    requires SideOk(x, passive) && Phase(x, y) && Phase(y, x) && !x.pcb.state.Free?
    requires p == x.pcb.(state := Closed) || p == ZeroPcb()
    ensures var x' := Put(x, p);
            SideOk(x', passive) && Phase(x', y) && Phase(y, x') && Shuts(x, x')
  {
  }

  lemma Shut(x: Side, p: Pcb, y: Side, xy: seq<Segment>, yx: seq<Segment>, passive: bool)
    requires Linked(x, y, xy, yx, passive) && !x.pcb.state.Free?
    requires p == x.pcb.(state := Closed) || p == ZeroPcb()
    ensures Linked(Put(x, p), y, xy, yx, passive)
  {
    ShutSide(x, p, y, passive);
    ShutHalves(x, Put(x, p), y, xy, yx, passive);
  }

  lemma LastAckHeard(x: Side, y: Side, xy: seq<Segment>, yx: seq<Segment>, passive: bool)
    requires AtHead(x, y, xy, yx, passive) && x.pcb.state.LastAck?
    ensures Linked(HearOn(x, yx[0]), y, xy, yx[1..], passive)
  {
    HeadFacts(x, y, xy, yx, passive);
    var x' := HearOn(x, yx[0]);
    WhenAllTaken(TxOf(y, !passive), x.pcb, yx[0]);
    DataPop(TxOf(y, !passive), RxOf(x), Live(x), yx);
    RecvQuiet(y, x, x', yx, xy, !passive);
    SendHear(x, x', y, xy, yx, passive);
  }

  lemma DeliverLastAck(x: Side, y: Side, xy: seq<Segment>, yx: seq<Segment>, passive: bool, act: Action)
    requires AtHead(x, y, xy, yx, passive) && Acceptable(x.pcb, yx[0]) && x.pcb.state.LastAck? && act.Deliver?
    ensures var v := DoDeliver(Move(x, yx, xy), act);
            Linked(v.me, y, v.outbox, v.inbox, passive)
  {
    hide Half, Phase;
    HeadFacts(x, y, xy, yx, passive);
    WhenAccepted(TxOf(y, !passive), x.pcb, yx[0]);
    LastAckIs(x.pcb, yx[0], act);
    LastAckHeard(x, y, xy, yx, passive);
    var p := Arrives(x.pcb, yx[0], act.local, act.foreign, act.iss, act.now, act.destroyed).pcb;
    var x' := HearOn(x, yx[0]);
    assert Segs([]) == [] && xy + [] == xy;
    assert DoDeliver(Move(x, yx, xy), act) == Move(Put(x', p), yx[1..], xy);
    if p == x.pcb {
      assert Put(x', p) == x';
    } else {
      Shut(x', p, y, xy, yx[1..], passive);
    }
  }

  // ---- The handshake ----

  /** The passive side takes the SYN and chooses its own sequence number. */
  lemma ListenIs(x: Side, yx: seq<Segment>, xy: seq<Segment>, act: Action)
    requires act.Deliver? && yx != [] && x.pcb.state.Listen? && x.pcb.queue == []
    requires yx[0].flags == SYN && yx[0].seqno < TWO31 && act.iss < TWO31
    ensures var e := Entry(act.now, act.now, DEFAULT_RTO, act.iss, SYN_ACK, []);
            var p := x.pcb.(local := act.local, foreign := act.foreign, rcvWnd := BUF_SIZE, rcvNxt := yx[0].seqno + 1,
                            irs := yx[0].seqno, iss := act.iss, queue := [e], sndNxt := act.iss + 1,
                            sndUna := act.iss, state := SynReceived);
            DoDeliver(Move(x, yx, xy), act) ==
            Move(Put(x, p), yx[1..], xy + [Segment(act.iss, yx[0].seqno + 1, SYN_ACK, BUF_SIZE, [])])
  {
    var p1 := x.pcb.(local := act.local, foreign := act.foreign, rcvWnd := BUF_SIZE,
                     rcvNxt := U32(yx[0].seqno + 1), irs := yx[0].seqno, iss := act.iss);
    assert Segs([Emit(p1, SYN_ACK, [])]) == [Emit(p1, SYN_ACK, []).seg];
    assert [] + [NewEntry(p1, SYN_ACK, [], act.now)] == [NewEntry(p1, SYN_ACK, [], act.now)];
  }

  predicate JustSynced(x: Side, iss: u32, peer: u32, e: Entry) {
    && x.last.iss == iss && x.stream == [] && !x.fin && Live(x) && x.got == []
    && x.last.sndNxt == iss + 1 && x.last.sndUna == iss && x.last.rcvNxt == peer + 1
    && x.last.rcvWnd == BUF_SIZE && x.last.queue == [e]
    && SwOf(x) == Sw(iss, 0, 0, 0, 0, 0)
    && e.seqno == iss && e.flags == SYN_ACK && e.text == []
  }

  lemma ListenSend(x: Side, x': Side, y: Side, xy: seq<Segment>, yx: seq<Segment>, iss: u32, e: Entry, m: Segment)
    requires Half(x, y, xy, yx, true) && !Started(x) && !Synced(y) && yx != []
    requires JustSynced(x', iss, y.last.iss, e)
    requires m.flags == SYN_ACK && m.seqno == iss && m.text == []
    ensures Half(x', y, xy + [m], yx[1..], true)
  {
    var tx := TxOf(x', true);
    StartLink(tx, RxOf(y), Live(y), xy, yx[1..], m, y.last.sndNxt, e);
  }

  lemma ListenRecv(x: Side, x': Side, y: Side, xy: seq<Segment>, yx: seq<Segment>, iss: u32, e: Entry, m: Segment)
    requires Half(y, x, yx, xy, false) && Started(y) && Live(x) && !Started(x) && !Synced(x)
    requires yx != [] && yx[0].flags == SYN
    requires JustSynced(x', iss, y.last.iss, e)
    requires m == Segment(iss, y.last.iss + 1, SYN_ACK, BUF_SIZE, [])
    ensures Half(y, x', yx[1..], xy + [m], false)
  {
    DataSyn(TxOf(y, false), RxOf(x), yx, BUF_SIZE);
    RecvAck(y, x, x', yx, xy, false, m);
  }

  lemma ListenFacts(x: Side, y: Side, xy: seq<Segment>, yx: seq<Segment>, passive: bool)
    requires Linked(x, y, xy, yx, passive) && x.pcb.state.Listen? && yx != [] && Plain(yx[0])
    ensures passive && !Started(x) && Started(y) && !Synced(x) && !Synced(y) && x.pcb == x.last && x.last.queue == []
    ensures yx[0].flags == SYN && yx[0].seqno == y.last.iss < TWO31
    ensures x.stream == [] && !x.fin && x.got == []
    ensures x.heard == 0 && x.top == 0 && x.last.sndWnd == 0 && x.last.wl1 == 0 && x.last.wl2 == 0
  {
    assert yx[0] in yx;
  }

  /** What the passive side becomes when it takes the SYN. */
  function SynTaken(x: Side, peer: u32, act: Action): Side
    requires act.Deliver? && peer < TWO31 && act.iss < TWO31
  {
    var e := Entry(act.now, act.now, DEFAULT_RTO, act.iss, SYN_ACK, []);
    Put(x, x.pcb.(local := act.local, foreign := act.foreign, rcvWnd := BUF_SIZE, rcvNxt := peer + 1, irs := peer,
                  iss := act.iss, queue := [e], sndNxt := act.iss + 1, sndUna := act.iss, state := SynReceived))
  }

  lemma ListenResult(x: Side, y: Side, yx: seq<Segment>, xy: seq<Segment>, act: Action)
    requires act.Deliver? && yx != [] && x.pcb.state.Listen? && x.pcb.queue == []
    requires yx[0].flags == SYN && yx[0].seqno == y.last.iss < TWO31 && act.iss < TWO31
    ensures DoDeliver(Move(x, yx, xy), act) ==
            Move(SynTaken(x, y.last.iss, act), yx[1..],
                 xy + [Segment(act.iss, y.last.iss + 1, SYN_ACK, BUF_SIZE, [])])
  {
    ListenIs(x, yx, xy, act);
  }

  lemma SynTakenSide(x: Side, y: Side, act: Action)
    requires SideOk(x, true) && x.pcb.state.Listen? && x.pcb == x.last && act.Deliver? && act.iss < TWO31
    requires y.last.iss < TWO31 && !Synced(y) && y.stream == []
    requires x.stream == [] && !x.fin && x.got == []
    requires x.heard == 0 && x.top == 0 && x.last.sndWnd == 0 && x.last.wl1 == 0 && x.last.wl2 == 0
    ensures var x' := SynTaken(x, y.last.iss, act);
            && SideOk(x', true) && Phase(x', y) && Phase(y, x')
            && JustSynced(x', act.iss, y.last.iss, Entry(act.now, act.now, DEFAULT_RTO, act.iss, SYN_ACK, []))
  {
  }

  lemma DeliverListen(x: Side, y: Side, xy: seq<Segment>, yx: seq<Segment>, passive: bool, act: Action)
    requires Linked(x, y, xy, yx, passive) && x.pcb.state.Listen? && yx != [] && Plain(yx[0])
    requires act.Deliver? && act.iss < TWO31
    ensures var v := DoDeliver(Move(x, yx, xy), act);
            Linked(v.me, y, v.outbox, v.inbox, passive)
  {
    ListenFacts(x, y, xy, yx, passive);
    var x' := SynTaken(x, y.last.iss, act);
    ListenResult(x, y, yx, xy, act);
    SynTakenSide(x, y, act);
    var e := Entry(act.now, act.now, DEFAULT_RTO, act.iss, SYN_ACK, []);
    var reply := Segment(act.iss, y.last.iss + 1, SYN_ACK, BUF_SIZE, []);
    ListenSend(x, x', y, xy, yx, act.iss, e, reply);
    ListenRecv(x, x', y, xy, yx, act.iss, e, reply);
  }

  // ---- The active side takes the SYN and its acknowledgement ----

  lemma SynSentFacts(x: Side, y: Side, xy: seq<Segment>, yx: seq<Segment>, passive: bool)
    requires Linked(x, y, xy, yx, passive) && x.pcb.state.SynSent? && yx != [] && Plain(yx[0])
    ensures !passive && Started(x) && Started(y) && !Synced(x) && Synced(y) && x.pcb == x.last
    ensures yx[0].flags == SYN_ACK && yx[0].seqno == y.last.iss < TWO31 && yx[0].text == []
    ensures x.last.sndUna == x.last.iss && x.last.sndNxt == x.last.iss + 1 == yx[0].ack
    ensures x.stream == [] && !x.fin && x.got == [] && y.stream == [] && !y.fin
    ensures x.last.rcvWnd == BUF_SIZE && x.last.iss < TWO31
    ensures y.last.sndUna == y.last.iss && y.last.sndNxt == y.last.iss + 1
  {
    var m := yx[0];
    assert m in yx;
    FirstIsSyn(TxOf(y, true), RxOf(x), yx);
    WindowsAgree(TxOf(y, true), SwOf(y), RxOf(x), x.last.sndNxt, xy);
  }

  function SynAckTaken(x: Side, m: Segment): Side
    requires m.seqno < TWO31
  {
    Put(HearOn(x, m), x.pcb.(rcvNxt := m.seqno + 1, irs := m.seqno, sndUna := m.ack,
                             queue := Cleanup(x.pcb.queue, m.ack), state := Established, sndWnd := m.wnd,
                             wl1 := m.seqno, wl2 := m.ack))
  }

  lemma SynSentIs(x: Side, yx: seq<Segment>, xy: seq<Segment>, act: Action)
    requires act.Deliver? && yx != [] && x.pcb.state.SynSent? && x.pcb == x.last
    requires yx[0].flags == SYN_ACK && yx[0].seqno < TWO31
    requires x.last.sndUna == x.last.iss && x.last.sndNxt == x.last.iss + 1 == yx[0].ack
    ensures var x' := SynAckTaken(x, yx[0]);
            DoDeliver(Move(x, yx, xy), act) == Move(x', yx[1..], xy + [AckSeg(x'.last)])
  {
    hide Cleanup;
    var m := yx[0];
    var p := x.pcb.(rcvNxt := U32(m.seqno + 1), irs := m.seqno, sndUna := m.ack, queue := Cleanup(x.pcb.queue, m.ack));
    assert Segs([Emit(p, ACK, [])]) == [AckSeg(p)];
  }

  lemma SynSentSide(x: Side, y: Side, m: Segment)
    requires SideOk(x, false) && x.pcb.state.SynSent? && x.pcb == x.last && Carries(m)
    requires m.seqno == y.last.iss < TWO31 && y.stream == [] && !y.fin
    requires x.last.sndNxt == x.last.iss + 1 == m.ack && x.stream == [] && !x.fin && x.got == []
    requires Phase(y, x)
    ensures var x' := SynAckTaken(x, m);
            SideOk(x', false) && Phase(x', y) && Phase(y, x')
  {
  }

  lemma SynAckRx(x: Side, m: Segment)
    requires x.pcb == x.last && x.last.rcvWnd == BUF_SIZE && x.got == [] && m.seqno < TWO31
    ensures var x' := SynAckTaken(x, m);
            && RxOf(x') == Rx(m.seqno + 1, BUF_SIZE, []) && Live(x') && x'.last.sndNxt == x.last.sndNxt
            && x'.last.rcvNxt == m.seqno + 1 && x'.last.rcvWnd == BUF_SIZE
  {
  }

  lemma SynSentHalves(x: Side, x': Side, y: Side, xy: seq<Segment>, yx: seq<Segment>)
    requires Half(y, x, yx, xy, true) && Started(y) && Live(x) && !Synced(x) && x.got == []
    requires yx != [] && yx[0].flags == SYN_ACK && yx[0].seqno == y.last.iss < TWO31
    requires y.last.sndUna == y.last.iss && y.last.sndNxt == y.last.iss + 1
    requires x.pcb == x.last && x.last.rcvWnd == BUF_SIZE && x' == SynAckTaken(x, yx[0])
    ensures Half(y, x', yx[1..], xy + [AckSeg(x'.last)], true)
  {
    DataSyn(TxOf(y, true), RxOf(x), yx, BUF_SIZE);
    SynAckRx(x, yx[0]);
    hide SynAckTaken, Cleanup;
    RecvAck(y, x, x', yx, xy, true, AckSeg(x'.last));
  }

  lemma DeliverSynSent(x: Side, y: Side, xy: seq<Segment>, yx: seq<Segment>, passive: bool, act: Action)
    requires Linked(x, y, xy, yx, passive) && x.pcb.state.SynSent? && yx != [] && Plain(yx[0]) && act.Deliver?
    ensures var v := DoDeliver(Move(x, yx, xy), act);
            Linked(v.me, y, v.outbox, v.inbox, passive)
  {
    hide DoDeliver, DataLink, AckLink, TileLink, QueueGenuine;
    SynSentFacts(x, y, xy, yx, passive);
    SynSentIs(x, yx, xy, act);
    var x' := SynAckTaken(x, yx[0]);
    SynSentSide(x, y, yx[0]);
    SynSentHalves(x, x', y, xy, yx);
    SendTake(x, x', y, xy, yx, false);
    SendAnswer(x', y, xy, yx[1..], false, AckSeg(x'.last));
  }

  /** Whatever arrives, and in whatever state. */
  lemma DeliverKeeps(x: Side, y: Side, xy: seq<Segment>, yx: seq<Segment>, passive: bool, act: Action)
    requires Linked(x, y, xy, yx, passive) && yx != [] && act.Deliver? && act.iss < TWO31
    ensures var v := DoDeliver(Move(x, yx, xy), act);
            Linked(v.me, y, v.outbox, v.inbox, passive)
  {
    hide DoDeliver;
    if !Live(x) || !Plain(yx[0]) {
      DeliverNoise(x, y, xy, yx, passive, act);
    } else if x.pcb.state.Listen? {
      DeliverListen(x, y, xy, yx, passive, act);
    } else if x.pcb.state.SynSent? {
      DeliverSynSent(x, y, xy, yx, passive, act);
    } else if !Acceptable(x.pcb, yx[0]) {
      DeliverRejected(x, y, xy, yx, passive, act);
    } else if x.pcb.state.LastAck? {
      DeliverLastAck(x, y, xy, yx, passive, act);
    } else {
      DeliverRegular(x, y, xy, yx, passive, act);
    }
  }

  // ---- Calls of the local user, and the timer ----

  lemma OpenPassiveKeeps(x: Side, y: Side, xy: seq<Segment>, yx: seq<Segment>, act: Action)
    requires Linked(x, y, xy, yx, true) && act.Open? && x.pcb.state.Free? && x.last.state.Free?
    ensures var v := DoOpen(Move(x, yx, xy), true, act);
            Linked(v.me, y, v.outbox, v.inbox, true)
  {
  }

  /** An endpoint after an active open. */
  function Opened(x: Side, act: Action): Side
    requires act.Open? && act.iss < TWO31
  {
    var e := Entry(act.now, act.now, DEFAULT_RTO, act.iss, SYN, []);
    Put(x, x.pcb.(local := act.local, foreign := act.foreign, rcvWnd := BUF_SIZE, iss := act.iss,
                  queue := [e], sndUna := act.iss, sndNxt := act.iss + 1, state := SynSent))
  }

  lemma OpenActiveIs(x: Side, yx: seq<Segment>, xy: seq<Segment>, act: Action)
    requires act.Open? && act.iss < TWO31 && x.pcb == x.last == ZeroPcb()
    ensures DoOpen(Move(x, yx, xy), false, act) ==
            Move(Opened(x, act), yx, xy + [Segment(act.iss, 0, SYN, BUF_SIZE, [])])
  {
    var p1 := x.pcb.(state := Closed, local := act.local, foreign := act.foreign, rcvWnd := BUF_SIZE, iss := act.iss);
    assert Segs([Emit(p1, SYN, [])]) == [Segment(act.iss, 0, SYN, BUF_SIZE, [])];
    assert [] + [NewEntry(p1, SYN, [], act.now)] == [NewEntry(p1, SYN, [], act.now)];
  }

  lemma BeforeOpen(x: Side, y: Side, xy: seq<Segment>, yx: seq<Segment>)
    requires Linked(x, y, xy, yx, false) && x.pcb.state.Free? && x.last.state.Free?
    ensures x.pcb == x.last == ZeroPcb() && x.stream == [] && !x.fin && !Started(y) && !Synced(y)
  {
  }

  lemma OpenedSide(x: Side, y: Side, act: Action)
    requires SideOk(x, false) && Phase(y, x) && act.Open? && act.iss < TWO31 && x.last.state.Free? && x.pcb == x.last
    requires !Synced(y)
    ensures SideOk(Opened(x, act), false) && Phase(Opened(x, act), y) && Phase(y, Opened(x, act))
  {
  }

  lemma OpenedHalves(x: Side, y: Side, xy: seq<Segment>, yx: seq<Segment>, act: Action)
    requires Half(x, y, xy, yx, false) && Half(y, x, yx, xy, true) && act.Open? && act.iss < TWO31
    requires x.pcb == x.last == ZeroPcb() && x.stream == [] && !x.fin && !Started(y) && !Synced(y)
    ensures var m := Segment(act.iss, 0, SYN, BUF_SIZE, []);
            Half(Opened(x, act), y, xy + [m], yx, false) && Half(y, Opened(x, act), yx, xy + [m], true)
  {
    var x' := Opened(x, act);
    var e := Entry(act.now, act.now, DEFAULT_RTO, act.iss, SYN, []);
    var m := Segment(act.iss, 0, SYN, BUF_SIZE, []);
    StartLink(TxOf(x', false), RxOf(y), Live(y), xy, yx, m, y.last.sndNxt, e);
  }

  lemma OpenActiveKeeps(x: Side, y: Side, xy: seq<Segment>, yx: seq<Segment>, act: Action)
    requires Linked(x, y, xy, yx, false) && act.Open? && act.iss < TWO31 && x.pcb.state.Free? && x.last.state.Free?
    ensures var v := DoOpen(Move(x, yx, xy), false, act);
            Linked(v.me, y, v.outbox, v.inbox, false)
  {
    hide DoOpen, Opened, Half, SideOk, Phase, ZeroPcb;
    BeforeOpen(x, y, xy, yx);
    OpenActiveIs(x, yx, xy, act);
    OpenedSide(x, y, act);
    OpenedHalves(x, y, xy, yx, act);
  }

  lemma CapacityIsExact(p: Pcb)
    requires p.sndUna <= p.sndNxt <= p.sndUna + p.sndWnd
    ensures Capacity(p) == p.sndUna + p.sndWnd - p.sndNxt
  {
  }

  /**
   * An endpoint that may send: its SYN is acknowledged, and the unsigned subtraction gives what is left of a window
   * that lies inside the peer's.
   */
  lemma SenderFacts(x: Side, y: Side, xy: seq<Segment>, yx: seq<Segment>, passive: bool)
    requires Linked(x, y, xy, yx, passive) && CanSend(x.pcb)
    ensures x.pcb == x.last && Live(x) && Started(x) && Synced(x) && Started(y) && Synced(y) && !x.fin
    ensures x.last.iss < x.last.sndUna <= x.last.sndNxt == x.last.iss + 1 + |x.stream|
    ensures x.last.sndNxt <= x.last.sndUna + x.last.sndWnd <= y.last.rcvNxt + y.last.rcvWnd
    ensures Capacity(x.pcb) == x.last.sndUna + x.last.sndWnd - x.last.sndNxt
    ensures y.last.sndUna <= x.last.rcvNxt && y.last.rcvNxt <= x.last.sndNxt
  {
    WindowsAgree(TxOf(x, passive), SwOf(x), RxOf(y), y.last.sndNxt, yx);
    CapacityIsExact(x.pcb);
  }

  /** The other direction sees the new segment as an acknowledgement. */
  lemma EmitHalf(y: Side, x: Side, x': Side, yx: seq<Segment>, xy: seq<Segment>, passive: bool, m: Segment)
    requires Half(y, x, yx, xy, passive) && Started(y) && Synced(x) && y.last.sndUna <= x.last.rcvNxt
    requires x'.last.rcvNxt == x.last.rcvNxt && x'.last.rcvWnd == x.last.rcvWnd && RxOf(x') == RxOf(x)
    requires Live(x') == Live(x) && x.last.sndNxt <= x'.last.sndNxt
    requires Carries(m) && m.ack == x.last.rcvNxt && m.wnd == x.last.rcvWnd && m.seqno <= x'.last.sndNxt
    ensures Half(y, x', yx, xy + [m], passive)
  {
    AckEmit(TxOf(y, passive), SwOf(y), RxOf(x), x.last.sndNxt, xy, RxOf(x'), x'.last.sndNxt, m);
    TileAdvance(y.last.queue, y.last.sndUna, y.last.sndNxt, x.last.rcvNxt, yx, xy, x.last.rcvNxt, m);
  }

  lemma QueueAdds(tx: Tx, tx': Tx, q: seq<Entry>, e: Entry)
    requires QueueGenuine(tx, q) && tx'.iss == tx.iss && tx'.passive == tx.passive && tx.stream <= tx'.stream
    requires !tx.fin && EntryGenuine(tx', e)
    ensures QueueGenuine(tx', q + [e])
  {
  }

  /** A sender before and after it adds `m` to its stream and `e` to its queue. */
  ghost predicate Sends(x: Side, x': Side, m: Segment, e: Entry) {
    && Started(x) && !x.fin && x.last.sndUna > x.last.iss
    && m.flags == PSH_ACK && m.text != [] && |m.text| <= MAX_TEXT && m.seqno == x.last.sndNxt
    && e.flags == PSH_ACK && e.text == m.text && e.seqno == m.seqno
    && x'.last.iss == x.last.iss && x'.stream == x.stream + m.text && x'.fin == x.fin
    && x'.last.sndNxt == x.last.sndNxt + |m.text| && SwOf(x') == SwOf(x) && x'.last.queue == x.last.queue + [e]
  }

  lemma SendGenuine(x: Side, x': Side, passive: bool, m: Segment, e: Entry)
    requires Sends(x, x', m, e) && QueueGenuine(TxOf(x, passive), x.last.queue)
    requires x.last.sndNxt == TxOf(x, passive).Nxt()
    ensures QueueGenuine(TxOf(x', passive), x'.last.queue)
  {
  }

  lemma SendData(x: Side, x': Side, y: Side, xy: seq<Segment>, passive: bool, m: Segment, e: Entry)
    requires Sends(x, x', m, e) && Synced(y) && x.last.sndNxt == TxOf(x, passive).Nxt()
    requires DataLink(TxOf(x, passive), RxOf(y), Live(y), xy)
    requires x.last.sndNxt + |m.text| <= y.last.rcvNxt + y.last.rcvWnd
    ensures DataLink(TxOf(x', passive), RxOf(y), Live(y), xy + [m])
  {
    var tx := TxOf(x, passive);
    assert TxOf(x', passive) == tx.(stream := tx.stream + m.text);
    DataSend(tx, RxOf(y), Live(y), xy, m);
  }

  lemma SendAcks(x: Side, x': Side, y: Side, yx: seq<Segment>, passive: bool, m: Segment, e: Entry)
    requires Sends(x, x', m, e) && x.last.sndNxt == TxOf(x, passive).Nxt()
    requires AckLink(TxOf(x, passive), SwOf(x), RxOf(y), y.last.sndNxt, yx)
    requires x.last.sndNxt + |m.text| <= x.last.sndUna + x.last.sndWnd
    ensures AckLink(TxOf(x', passive), SwOf(x'), RxOf(y), y.last.sndNxt, yx)
  {
  }

  lemma SendHalf(x: Side, x': Side, y: Side, xy: seq<Segment>, yx: seq<Segment>, passive: bool, m: Segment, e: Entry)
    requires Half(x, y, xy, yx, passive) && Sends(x, x', m, e) && Synced(y)
    requires x.last.sndNxt + |m.text| <= x.last.sndUna + x.last.sndWnd <= y.last.rcvNxt + y.last.rcvWnd
    ensures Half(x', y, xy + [m], yx, passive)
  {
    hide DataLink, TileLink, QueueGenuine;
    SendData(x, x', y, xy, passive, m, e);
    SendAcks(x, x', y, yx, passive, m, e);
    TileSend(x.last.queue, x.last.sndUna, x.last.sndNxt, y.last.rcvNxt, xy, yx, e, m);
    SendGenuine(x, x', passive, m, e);
  }

  lemma SendIs(x: Side, yx: seq<Segment>, xy: seq<Segment>, passive: bool, text: seq<byte>, now: Timeval)
    requires MaySend(x, text) && x.pcb.sndNxt + |text| < TWO32
    ensures var e := Entry(now, now, DEFAULT_RTO, x.pcb.sndNxt, PSH_ACK, text);
            var p := x.pcb.(queue := x.pcb.queue + [e], sndNxt := x.pcb.sndNxt + |text|);
            Act(Move(x, yx, xy), passive, Send(text, now)) ==
            Move(Put(x, p).(stream := x.stream + text), yx,
                 xy + [Segment(x.pcb.sndNxt, x.pcb.rcvNxt, PSH_ACK, x.pcb.rcvWnd, text)])
  {
    assert Segs([Emit(x.pcb, PSH_ACK, text)]) == [Emit(x.pcb, PSH_ACK, text).seg];
  }

  lemma SendSide(x: Side, y: Side, passive: bool, text: seq<byte>, p: Pcb)
    requires SideOk(x, passive) && Phase(x, y) && Phase(y, x) && x.pcb == x.last && CanSend(x.pcb) && Synced(x)
    requires |x.stream| + |text| <= MAX_OCTETS && p == x.pcb.(queue := p.queue, sndNxt := p.sndNxt) && p.sndNxt > 0
    requires y.last.rcvNxt <= x.last.iss + 1 + |x.stream|
    ensures var x' := Put(x, p).(stream := x.stream + text);
            SideOk(x', passive) && Phase(x', y) && Phase(y, x')
  {
  }

  lemma SendKeeps(x: Side, y: Side, xy: seq<Segment>, yx: seq<Segment>, passive: bool, text: seq<byte>, now: Timeval)
    requires Linked(x, y, xy, yx, passive) && MaySend(x, text)
    ensures var v := Act(Move(x, yx, xy), passive, Send(text, now));
            Linked(v.me, y, v.outbox, v.inbox, passive)
  {
    hide Half, Phase, Act;
    SenderFacts(x, y, xy, yx, passive);
    SendIs(x, yx, xy, passive, text, now);
    var e := Entry(now, now, DEFAULT_RTO, x.pcb.sndNxt, PSH_ACK, text);
    var p := x.pcb.(queue := x.pcb.queue + [e], sndNxt := x.pcb.sndNxt + |text|);
    var x' := Put(x, p).(stream := x.stream + text);
    var m := Segment(x.pcb.sndNxt, x.pcb.rcvNxt, PSH_ACK, x.pcb.rcvWnd, text);
    SendSide(x, y, passive, text, p);
    SendHalf(x, x', y, xy, yx, passive, m, e);
    EmitHalf(y, x, x', yx, xy, !passive, m);
  }

  // ---- Close ----

  lemma CloseHalf(x: Side, x': Side, y: Side, xy: seq<Segment>, yx: seq<Segment>, passive: bool, m: Segment, e: Entry)
    requires Half(x, y, xy, yx, passive) && Started(x) && Synced(y) && !x.fin && x.last.sndUna > x.last.iss
    requires m.flags == FIN_ACK && m.text == [] && m.seqno == x.last.sndNxt
    requires e.flags == FIN_ACK && e.text == [] && e.seqno == m.seqno
    requires x'.last.iss == x.last.iss && x'.stream == x.stream && x'.fin
    requires x'.last.sndNxt == x.last.sndNxt + 1 && SwOf(x') == SwOf(x) && x'.last.queue == x.last.queue + [e]
    ensures Half(x', y, xy + [m], yx, passive)
  {
    hide DataLink, TileLink, QueueGenuine;
    var tx, tx' := TxOf(x, passive), TxOf(x', passive);
    DataSendFin(tx, RxOf(y), Live(y), xy, m);
    AckGrow(tx, SwOf(x), RxOf(y), y.last.sndNxt, yx, tx');
    TileSend(x.last.queue, x.last.sndUna, x.last.sndNxt, y.last.rcvNxt, xy, yx, e, m);
    QueueAdds(tx, tx', x.last.queue, e);
  }

  lemma CloseIs(x: Side, yx: seq<Segment>, xy: seq<Segment>, passive: bool, now: Timeval)
    requires CanSend(x.pcb) && x.pcb.sndNxt + 1 < TWO32
    ensures var e := Entry(now, now, DEFAULT_RTO, x.pcb.sndNxt, FIN_ACK, []);
            var p := x.pcb.(queue := x.pcb.queue + [e], sndNxt := x.pcb.sndNxt + 1,
                            state := if x.pcb.state.Established? then FinWait1 else LastAck);
            Act(Move(x, yx, xy), passive, Close(now)) ==
            Move(Put(x, p).(fin := true), yx,
                 xy + [Segment(x.pcb.sndNxt, x.pcb.rcvNxt, FIN_ACK, x.pcb.rcvWnd, [])])
  {
    assert Segs([Emit(x.pcb, FIN_ACK, [])]) == [Emit(x.pcb, FIN_ACK, []).seg];
  }

  lemma CloseSide(x: Side, y: Side, passive: bool, p: Pcb)
    requires SideOk(x, passive) && Phase(x, y) && Phase(y, x) && x.pcb == x.last && CanSend(x.pcb) && Synced(x)
    requires p == x.pcb.(queue := p.queue, sndNxt := p.sndNxt, state := p.state) && p.sndNxt > 0
    requires p.state == if x.pcb.state.Established? then FinWait1 else LastAck
    requires y.last.rcvNxt <= x.last.iss + 1 + |x.stream| && !x.fin
    ensures var x' := Put(x, p).(fin := true);
            SideOk(x', passive) && Phase(x', y) && Phase(y, x')
  {
  }

  lemma CloseKeeps(x: Side, y: Side, xy: seq<Segment>, yx: seq<Segment>, passive: bool, now: Timeval)
    requires Linked(x, y, xy, yx, passive) && CanSend(x.pcb)
    ensures var v := Act(Move(x, yx, xy), passive, Close(now));
            Linked(v.me, y, v.outbox, v.inbox, passive)
  {
    hide Half, Phase, Act;
    SenderFacts(x, y, xy, yx, passive);
    CloseIs(x, yx, xy, passive, now);
    var e := Entry(now, now, DEFAULT_RTO, x.pcb.sndNxt, FIN_ACK, []);
    var p := x.pcb.(queue := x.pcb.queue + [e], sndNxt := x.pcb.sndNxt + 1,
                    state := if x.pcb.state.Established? then FinWait1 else LastAck);
    var x' := Put(x, p).(fin := true);
    var m := Segment(x.pcb.sndNxt, x.pcb.rcvNxt, FIN_ACK, x.pcb.rcvWnd, []);
    CloseSide(x, y, passive, p);
    CloseHalf(x, x', y, xy, yx, passive, m, e);
    EmitHalf(y, x, x', yx, xy, !passive, m);
  }

  // ---- Receive ----

  lemma ReceiveHalf(y: Side, x: Side, x': Side, yx: seq<Segment>, xy: seq<Segment>, passive: bool)
    requires Half(y, x, yx, xy, passive)
    requires RxOf(x').nxt == RxOf(x).nxt && RxOf(x').copied == RxOf(x).copied && x'.last.rcvWnd >= x.last.rcvWnd
    requires x'.last.sndNxt == x.last.sndNxt && Live(x') == Live(x)
    ensures Half(y, x', yx, xy, passive)
  {
    if Started(y) {
      DataWeaken(TxOf(y, passive), RxOf(x), Live(x), yx, RxOf(x'), Live(x'));
      AckWiden(TxOf(y, passive), SwOf(y), RxOf(x), x.last.sndNxt, xy, RxOf(x'));
    }
  }

  lemma ReceiveSide(x: Side, y: Side, passive: bool, size: nat)
    requires SideOk(x, passive) && Phase(x, y) && Phase(y, x)
    requires x.pcb.state.Established? || x.pcb.state.CloseWait?
    ensures var r := Take(x.pcb, size);
            var x' := Put(x, r.pcb).(got := x.got + r.data);
            && SideOk(x', passive) && Phase(x', y) && Phase(y, x') && Synced(x) && x.pcb == x.last
            && RxOf(x') == Rx(x.last.rcvNxt, x.last.rcvWnd + |r.data|, RxOf(x).copied)
  {
  }

  lemma ReceiveIs(x: Side, yx: seq<Segment>, xy: seq<Segment>, passive: bool, size: nat)
    requires ReceiveCall(x.pcb, size).Got?
    ensures var r := Take(x.pcb, size);
            Act(Move(x, yx, xy), passive, Receive(size)) == Move(Put(x, r.pcb).(got := x.got + r.data), yx, xy)
    ensures x.pcb.state.Established? || x.pcb.state.CloseWait?
  {
  }

  lemma ReceiveKeeps(x: Side, y: Side, xy: seq<Segment>, yx: seq<Segment>, passive: bool, size: nat)
    requires Linked(x, y, xy, yx, passive) && ReceiveCall(x.pcb, size).Got?
    ensures var v := Act(Move(x, yx, xy), passive, Receive(size));
            Linked(v.me, y, v.outbox, v.inbox, passive)
  {
    ReceiveIs(x, yx, xy, passive, size);
    ReceiveSide(x, y, passive, size);
    var r := Take(x.pcb, size);
    var x' := Put(x, r.pcb).(got := x.got + r.data);
    ReceiveHalf(y, x, x', yx, xy, !passive);
    SendFrame(x, x', y, xy, yx, passive);
  }

  // ---- Timer ----

  /** The segment the timer repeats. */
  function Repetition(p: Pcb, e: Entry): Segment { Segment(e.seqno, p.rcvNxt, e.flags, p.rcvWnd, e.text) }

  lemma EntryRepeats(tx: Tx, e: Entry, p: Pcb)
    requires EntryGenuine(tx, e)
    ensures Repeats(tx, Repetition(p, e)) && FullSpan(Repetition(p, e)) == EntrySpan(e) > 0
    ensures Plain(Repetition(p, e)) && (Carries(Repetition(p, e)) || e.flags == SYN)
  {
  }

  /** Fresh clock fields leave the tiling and the contents of the queue alone. */
  lemma {:induction false} TilesTouch(q: seq<Entry>, una: nat, nxt: nat, i: nat, e: Entry)
    requires Tiles(q, una, nxt) && i < |q|
    requires e.seqno == q[i].seqno && e.flags == q[i].flags && e.text == q[i].text
    ensures Tiles(q[i := e], una, nxt)
  {
    if i == 0 {
      assert q[i := e][1..] == q[1..];
    } else {
      TilesTouch(q[1..], una + EntrySpan(q[0]), nxt, i - 1, e);
      assert q[i := e][1..] == q[1..][i - 1 := e];
    }
  }

  lemma SeamTouch(q: seq<Entry>, nxt: nat, i: nat, e: Entry, x: nat)
    requires i < |q| && e.seqno == q[i].seqno && Seam(q, nxt, x)
    ensures Seam(q[i := e], nxt, x)
  {
    if x != nxt {
      var f :| f in q && f.seqno == x;
      var j :| 0 <= j < |q| && q[j] == f;
      assert q[i := e][j] in q[i := e] && q[i := e][j].seqno == x;
    }
  }

  lemma TouchTiles(q: seq<Entry>, una: nat, nxt: nat, rcvNxt: nat, c: seq<Segment>, d: seq<Segment>, i: nat, e: Entry)
    requires TileLink(q, una, nxt, rcvNxt, c, d) && i < |q|
    requires e.seqno == q[i].seqno && e.flags == q[i].flags && e.text == q[i].text
    ensures TileLink(q[i := e], una, nxt, rcvNxt, c, d)
  {
    TilesTouch(q, una, nxt, i, e);
    forall z: nat | Seam(q, nxt, z) ensures Seam(q[i := e], nxt, z) { SeamTouch(q, nxt, i, e, z); }
  }

  lemma TouchGenuine(tx: Tx, q: seq<Entry>, i: nat, e: Entry)
    requires QueueGenuine(tx, q) && i < |q|
    requires e.seqno == q[i].seqno && e.flags == q[i].flags && e.text == q[i].text
    ensures QueueGenuine(tx, q[i := e])
  {
    assert EntryGenuine(tx, q[i]);
  }

  lemma TouchHalf(x: Side, x': Side, y: Side, xy: seq<Segment>, yx: seq<Segment>, passive: bool, i: nat, e: Entry)
    requires Half(x, y, xy, yx, passive) && Started(x) && i < |x.last.queue|
    requires e.seqno == x.last.queue[i].seqno && e.flags == x.last.queue[i].flags && e.text == x.last.queue[i].text
    requires SameTx(x, x') && SwOf(x') == SwOf(x) && x'.last.queue == x.last.queue[i := e]
    ensures Half(x', y, xy, yx, passive)
  {
    TouchTiles(x.last.queue, x.last.sndUna, x.last.sndNxt, y.last.rcvNxt, xy, yx, i, e);
    TouchGenuine(TxOf(x, passive), x.last.queue, i, e);
  }

  lemma RepeatHalf(x: Side, y: Side, xy: seq<Segment>, yx: seq<Segment>, passive: bool, e: Entry)
    requires Half(x, y, xy, yx, passive) && Started(x) && e in x.last.queue
    requires !Synced(y) ==> x.stream == [] && !x.fin
    ensures Half(x, y, xy + [Repetition(x.last, e)], yx, passive)
  {
    var tx, m := TxOf(x, passive), Repetition(x.last, e);
    EntryRepeats(tx, e, x.last);
    DataRepeat(tx, RxOf(y), Live(y), xy, m);
    TileRepeat(x.last.queue, x.last.sndUna, x.last.sndNxt, y.last.rcvNxt, xy, yx, m);
  }

  /** The other direction: a repetition acknowledges nothing the last segment did not. */
  lemma RepeatEmit(y: Side, x: Side, yx: seq<Segment>, xy: seq<Segment>, passive: bool, m: Segment)
    requires Half(y, x, yx, xy, passive)
    requires m.ack == x.last.rcvNxt && m.wnd == x.last.rcvWnd && m.seqno <= x.last.sndNxt
    requires Carries(m) ==> Started(y) && Synced(x) && y.last.sndUna <= x.last.rcvNxt
    ensures Half(y, x, yx, xy + [m], passive)
  {
    if Carries(m) {
      EmitHalf(y, x, x, yx, xy, passive, m);
    } else if Started(y) {
      AckSkip(TxOf(y, passive), SwOf(y), RxOf(x), x.last.sndNxt, xy, m, x.last.sndNxt);
      TileNoise(y.last.queue, y.last.sndUna, y.last.sndNxt, x.last.rcvNxt, yx, xy, m);
    }
  }

  lemma TimerFacts(x: Side, y: Side, xy: seq<Segment>, yx: seq<Segment>, passive: bool, i: nat)
    requires Linked(x, y, xy, yx, passive) && i < |x.pcb.queue|
    ensures x.pcb == x.last && Started(x) && !x.pcb.state.Free?
    ensures !Synced(y) ==> x.stream == [] && !x.fin
    ensures EntryGenuine(TxOf(x, passive), x.last.queue[i]) && x.last.queue[i].seqno <= x.last.sndNxt
    ensures x.last.queue[i].flags != SYN ==> Started(y) && Synced(x) && y.last.sndUna <= x.last.rcvNxt
  {
    assert x.last.queue[i] in x.last.queue;
    TilesBounds(x.last.queue, x.last.sndUna, x.last.sndNxt);
  }

  lemma TouchSide(x: Side, y: Side, passive: bool, q: seq<Entry>)
    requires SideOk(x, passive) && Phase(x, y) && Phase(y, x) && x.pcb == x.last && !x.pcb.state.Free?
    ensures var x' := Put(x, x.pcb.(queue := q));
            SideOk(x', passive) && Phase(x', y) && Phase(y, x') && RxOf(x') == RxOf(x)
  {
  }

  lemma TimerAgain(x: Side, y: Side, xy: seq<Segment>, yx: seq<Segment>, passive: bool, i: nat, e: Entry)
    requires Linked(x, y, xy, yx, passive) && i < |x.pcb.queue|
    requires e.seqno == x.pcb.queue[i].seqno && e.flags == x.pcb.queue[i].flags && e.text == x.pcb.queue[i].text
    ensures var x' := Put(x, x.pcb.(queue := x.pcb.queue[i := e]));
            Linked(x', y, xy + [Repetition(x.pcb, x.pcb.queue[i])], yx, passive)
  {
    TimerFacts(x, y, xy, yx, passive, i);
    var x' := Put(x, x.pcb.(queue := x.pcb.queue[i := e]));
    var e0 := x.pcb.queue[i];
    EntryRepeats(TxOf(x, passive), e0, x.last);
    TouchSide(x, y, passive, x.pcb.queue[i := e]);
    RepeatHalf(x, y, xy, yx, passive, e0);
    TouchHalf(x, x', y, xy + [Repetition(x.last, e0)], yx, passive, i, e);
    RepeatEmit(y, x, yx, xy, !passive, Repetition(x.last, e0));
    ReceiveHalf(y, x, x', yx, xy + [Repetition(x.last, e0)], !passive);
  }

  lemma TimerIs(x: Side, yx: seq<Segment>, xy: seq<Segment>, passive: bool, i: nat, now: Timeval)
    requires i < |x.pcb.queue| && ClocksNormal(x.pcb.queue) && Normal(now)
    ensures var v := Act(Move(x, yx, xy), passive, Timer(i, now));
            match EmitEntry(x.pcb.queue[i], now)
            case Expired => v == Move(Put(x, x.pcb.(state := Closed)), yx, xy)
            case Waiting => v == Move(Put(x, x.pcb), yx, xy)
            case Again(e) => v == Move(Put(x, x.pcb.(queue := x.pcb.queue[i := e])), yx,
                                       xy + [Repetition(x.pcb, x.pcb.queue[i])])
  {
    assert xy + [] == xy && Segs([]) == [];
    var e := x.pcb.queue[i];
    var packet := Packet(x.pcb.local, x.pcb.foreign, Repetition(x.pcb, e));
    assert Segs([packet]) == [Repetition(x.pcb, e)];
  }

  lemma TimerKeeps(x: Side, y: Side, xy: seq<Segment>, yx: seq<Segment>, passive: bool, i: nat, now: Timeval)
    requires Linked(x, y, xy, yx, passive)
    requires i < |x.pcb.queue| && ClocksNormal(x.pcb.queue) && Normal(now)
    ensures var v := Act(Move(x, yx, xy), passive, Timer(i, now));
            Linked(v.me, y, v.outbox, v.inbox, passive)
  {
    hide Half, SideOk, Phase, Act;
    TimerFacts(x, y, xy, yx, passive, i);
    TimerIs(x, yx, xy, passive, i, now);
    match EmitEntry(x.pcb.queue[i], now)
    case Expired => Shut(x, x.pcb.(state := Closed), y, xy, yx, passive);
    case Waiting => assert Put(x, x.pcb) == x;
    case Again(e) => TimerAgain(x, y, xy, yx, passive, i, e);
  }

  // ---- Every run ----

  ghost predicate Kept(v: Move, y: Side, passive: bool) { Linked(v.me, y, v.outbox, v.inbox, passive) }

  lemma OpenStep(x: Side, y: Side, xy: seq<Segment>, yx: seq<Segment>, passive: bool, act: Action)
    requires Linked(x, y, xy, yx, passive) && act.Open?
    ensures Kept(Act(Move(x, yx, xy), passive, act), y, passive)
  {
    hide Half, SideOk, Phase;
    if act.iss < TWO31 && x.pcb.state.Free? && x.last.state.Free? {
      if passive { OpenPassiveKeeps(x, y, xy, yx, act); } else { OpenActiveKeeps(x, y, xy, yx, act); }
    }
  }

  lemma DeliverStep(x: Side, y: Side, xy: seq<Segment>, yx: seq<Segment>, passive: bool, act: Action)
    requires Linked(x, y, xy, yx, passive) && act.Deliver?
    ensures Kept(Act(Move(x, yx, xy), passive, act), y, passive)
  {
    hide Linked, DoDeliver;
    if act.iss < TWO31 && yx != [] { DeliverKeeps(x, y, xy, yx, passive, act); }
  }

  lemma SendStep(x: Side, y: Side, xy: seq<Segment>, yx: seq<Segment>, passive: bool, act: Action)
    requires Linked(x, y, xy, yx, passive) && act.Send?
    ensures Kept(Act(Move(x, yx, xy), passive, act), y, passive)
  {
    hide Linked;
    if MaySend(x, act.text) { SendKeeps(x, y, xy, yx, passive, act.text, act.now); }
  }

  lemma ReceiveStep(x: Side, y: Side, xy: seq<Segment>, yx: seq<Segment>, passive: bool, act: Action)
    requires Linked(x, y, xy, yx, passive) && act.Receive?
    ensures Kept(Act(Move(x, yx, xy), passive, act), y, passive)
  {
    hide Linked;
    if ReceiveCall(x.pcb, act.size).Got? { ReceiveKeeps(x, y, xy, yx, passive, act.size); }
  }

  lemma CloseStep(x: Side, y: Side, xy: seq<Segment>, yx: seq<Segment>, passive: bool, act: Action)
    requires Linked(x, y, xy, yx, passive) && act.Close?
    ensures Kept(Act(Move(x, yx, xy), passive, act), y, passive)
  {
    hide Linked;
    if CanSend(x.pcb) { CloseKeeps(x, y, xy, yx, passive, act.now); }
  }

  lemma TimerStep(x: Side, y: Side, xy: seq<Segment>, yx: seq<Segment>, passive: bool, act: Action)
    requires Linked(x, y, xy, yx, passive) && act.Timer?
    ensures Kept(Act(Move(x, yx, xy), passive, act), y, passive)
  {
    hide Linked;
    if act.index < |x.pcb.queue| && ClocksNormal(x.pcb.queue) && Normal(act.now) {
      TimerKeeps(x, y, xy, yx, passive, act.index, act.now);
    }
  }

  lemma InterruptStep(x: Side, y: Side, xy: seq<Segment>, yx: seq<Segment>, passive: bool, act: Action)
    requires Linked(x, y, xy, yx, passive) && act.Interrupt?
    ensures Kept(Act(Move(x, yx, xy), passive, act), y, passive)
  {
    hide Half, SideOk, Phase;
    if !x.pcb.state.Free? { Shut(x, Abort(x.pcb, act.destroyed), y, xy, yx, passive); }
  }

  lemma ActKeeps(x: Side, y: Side, xy: seq<Segment>, yx: seq<Segment>, passive: bool, act: Action)
    requires Linked(x, y, xy, yx, passive)
    ensures Kept(Act(Move(x, yx, xy), passive, act), y, passive)
  {
    hide Kept, Linked, Act;
    match act
    case Open(_, _, _, _) => OpenStep(x, y, xy, yx, passive, act);
    case Deliver(_, _, _, _, _) => DeliverStep(x, y, xy, yx, passive, act);
    case Send(_, _) => SendStep(x, y, xy, yx, passive, act);
    case Receive(_) => ReceiveStep(x, y, xy, yx, passive, act);
    case Close(_) => CloseStep(x, y, xy, yx, passive, act);
    case Timer(_, _) => TimerStep(x, y, xy, yx, passive, act);
    case Interrupt(_) => InterruptStep(x, y, xy, yx, passive, act);
  }

  lemma StepKeeps(n: Net, step: TcpPair.Step)
    requires Inv(n)
    ensures Inv(Next(n, step))
  {
    match step
    case AtA(act) => ActKeeps(n.a, n.b, n.ab, n.ba, false, act);
    case AtB(act) => ActKeeps(n.b, n.a, n.ba, n.ab, true, act);
  }

  lemma {:induction false} RunKeeps(n: Net, steps: seq<TcpPair.Step>)
    requires Inv(n)
    ensures Inv(TcpPair.Run(n, steps))
    decreases |steps|
  {
    hide Inv, Next;
    if steps == [] {
    } else {
      StepKeeps(n, steps[0]);
      RunKeeps(Next(n, steps[0]), steps[1..]);
    }
  }

  lemma InitIsLinked()
    ensures Inv(Init())
  {
  }

  /** The octets handed out by tcp_receive, then those waiting in the buffer. */
  function Received(x: Side): seq<byte> { RxOf(x).copied }

  /** What one direction of a reachable network promises. */
  ghost predicate Reliable(s: Side, r: Side) {
    // What was received is a prefix of what was accepted for sending, and no copy ever overran the buffer.
    && Received(r) <= s.stream
    && (Synced(r) ==> Received(r) == r.got + Buffered(r.last))
    && !r.overrun
    // The sender's window lies inside the receiver's, and all text sent lies inside the sender's window.
    && (Started(s) && s.last.sndUna > s.last.iss ==>
          s.last.iss + 1 + |s.stream| <= s.last.sndUna + s.last.sndWnd <= r.last.rcvNxt + r.last.rcvWnd)
    // Every unacknowledged octet, and the SYN and the FIN, is held for retransmission, exactly once.
    && (Started(s) ==> Tiles(s.last.queue, s.last.sndUna, s.last.sndNxt))
    // End of stream is reported only when everything sent has been handed out.
    && (forall size: nat :: ReceiveCall(r.pcb, size).EndOfStream? ==> r.got == s.stream)
  }

  /** All text has been copied when the peer's FIN has been taken. */
  lemma EndIsEnd(s: Side, r: Side, c: seq<Segment>, d: seq<Segment>, passive: bool, size: nat)
    requires Linked(s, r, c, d, passive) && ReceiveCall(r.pcb, size).EndOfStream?
    ensures r.got == s.stream
  {
    hide AckLink, TileLink, QueueGenuine;
    assert Buffered(r.last) == [];
    assert s.stream[..|s.stream|] == s.stream;
  }

  lemma HalfIsReliable(s: Side, r: Side, c: seq<Segment>, d: seq<Segment>, passive: bool)
    requires Linked(s, r, c, d, passive)
    ensures Reliable(s, r)
  {
    hide Phase, QueueGenuine, ReceiveCall;
    if Started(s) {
      WindowsAgree(TxOf(s, passive), SwOf(s), RxOf(r), r.last.sndNxt, d);
    }
    forall size: nat | ReceiveCall(r.pcb, size).EndOfStream? ensures r.got == s.stream {
      EndIsEnd(s, r, c, d, passive, size);
    }
  }

  /** Both directions of every run, of any length and any interleaving. */
  lemma EveryRunIsReliable(steps: seq<TcpPair.Step>)
    ensures var n := TcpPair.Run(Init(), steps);
            Reliable(n.a, n.b) && Reliable(n.b, n.a)
  {
    InitIsLinked();
    RunKeeps(Init(), steps);
    var n := TcpPair.Run(Init(), steps);
    HalfIsReliable(n.a, n.b, n.ab, n.ba, false);
    HalfIsReliable(n.b, n.a, n.ba, n.ab, true);
  }
}
