/** tcp_send as a blocking call: what it emits, whatever the other threads do while it sleeps. */
module TcpSend {
  import opened Base
  import opened Time
  import opened Tcp
  import opened TcpRun

  /**
   * The answers of the world to one turn of the loop: the clock, the result of `ip_output`, whether the condition
   * variable could be destroyed, and, for a turn spent asleep, what other threads did meanwhile and whether the sleep
   * was interrupted.
   */
  datatype Turn = Turn(now: Timeval, ok: bool, destroyed: bool, events: seq<Event>, interrupted: bool)

  datatype Outcome = Sent(count: nat) | Failed | Interrupted | Blocked

  datatype SendRun = SendRun(pcb: Pcb, outcome: Outcome, emitted: seq<Packet>)

  /**
   * A critical section of another thread or of the input handler. The caller is the only sender, and the slot is not
   * opened again under it.
   */
  function Other(p: Pcb, ev: Event): Step {
    match ev
    case DoSegment(seg, local, foreign, iss, now, destroyed) =>
      (match Arrives(p, seg, local, foreign, iss, now, destroyed)
       case Done(p', sent) => Step(p', sent)
       case Overrun => Step(p, []))
    case DoReceive(size) => (match ReceiveCall(p, size) case Got(p', _) => Step(p', []) case _ => Step(p, []))
    case DoClose(now) => if CanSend(p) then CloseCall(p, now) else Step(p, [])
    case DoTick(i, now) =>
      if i < |p.queue| && ClocksNormal(p.queue) && Normal(now) then Tick(p, i, now) else Step(p, [])
    case DoAbort(destroyed) => Step(Abort(p, destroyed), [])
    case _ => Step(p, [])
  }

  function Others(p: Pcb, evs: seq<Event>): Step
    decreases |evs|
  {
    if evs == [] then Step(p, [])
    else
      var first := Other(p, evs[0]);
      var rest := Others(first.pcb, evs[1..]);
      Step(rest.pcb, first.sent + rest.sent)
  }

  /** `mss`: unsigned, so that an MTU below 40 wraps around. */
  function Mss(mtu: u16): nat { if mtu >= 40 then mtu - 40 else 0x1_0000_0000_0000_0000 - (40 - mtu) }

  function TurnLength(p: Pcb, data: seq<byte>, sent: nat, mtu: u16): nat
    requires sent <= |data|
  {
    Min(Min(Mss(mtu), |data| - sent), Capacity(p))
  }

  /** tcp_send from a point where `sent` octets have gone out; `mtu` is that of the route to the peer, if any. */
  function SendCall(p: Pcb, data: seq<byte>, sent: nat, mtu: Option<u16>, turns: seq<Turn>): SendRun
    requires sent <= |data|
    decreases |turns|
  {
    if !CanSend(p) || mtu.None? then SendRun(p, Failed, [])
    else if sent == |data| then SendRun(p, Sent(sent), [])
    else if turns == [] then SendRun(p, Blocked, [])
    else
      var t := turns[0];
      if Capacity(p) == 0 then
        var o := Others(p, t.events).pcb;
        if t.interrupted then SendRun(o, if sent == 0 then Interrupted else Sent(sent), [])
        else SendCall(o, data, sent, mtu, turns[1..])
      else
        var slen := TurnLength(p, data, sent, mtu.value);
        var s := SendText(p, data[sent..sent + slen], t.now, t.ok, t.destroyed);
        if !t.ok then SendRun(s.pcb, Failed, s.sent)
        else
          var rest := SendCall(s.pcb, data, sent + slen, mtu, turns[1..]);
          SendRun(rest.pcb, rest.outcome, s.sent + rest.emitted)
  }

  /** The ways out of the loop, and its two kinds of turn. */
  lemma SendCallEnds(p: Pcb, data: seq<byte>, sent: nat, mtu: Option<u16>, turns: seq<Turn>)
    requires sent <= |data|
    ensures var r := SendCall(p, data, sent, mtu, turns);
            && (!CanSend(p) || mtu.None? ==> r == SendRun(p, Failed, []))
            && (CanSend(p) && mtu.Some? && sent == |data| ==> r == SendRun(p, Sent(sent), []))
            && (CanSend(p) && mtu.Some? && sent < |data| && turns == [] ==> r == SendRun(p, Blocked, []))
  {
  }

  lemma SendCallSleeps(p: Pcb, data: seq<byte>, sent: nat, mtu: Option<u16>, turns: seq<Turn>)
    requires CanSend(p) && mtu.Some? && sent < |data| && turns != [] && Capacity(p) == 0
    ensures SendCall(p, data, sent, mtu, turns) ==
            var o := Others(p, turns[0].events).pcb;
            if turns[0].interrupted then SendRun(o, if sent == 0 then Interrupted else Sent(sent), [])
            else SendCall(o, data, sent, mtu, turns[1..])
  {
  }

  lemma SendCallEmits(p: Pcb, data: seq<byte>, sent: nat, mtu: Option<u16>, turns: seq<Turn>)
    requires CanSend(p) && mtu.Some? && sent < |data| && turns != [] && Capacity(p) != 0
    ensures SendCall(p, data, sent, mtu, turns) ==
            var slen := TurnLength(p, data, sent, mtu.value);
            var s := SendText(p, data[sent..sent + slen], turns[0].now, turns[0].ok, turns[0].destroyed);
            if !turns[0].ok then SendRun(s.pcb, Failed, s.sent)
            else
              var rest := SendCall(s.pcb, data, sent + slen, mtu, turns[1..]);
              SendRun(rest.pcb, rest.outcome, s.sent + rest.emitted)
  {
  }

  function Texts(ps: seq<Packet>): seq<byte> { if ps == [] then [] else ps[0].seg.text + Texts(ps[1..]) }

  /** Segments of text that follow one another in sequence space from `from`. */
  predicate Consecutive(ps: seq<Packet>, from: u32) {
    ps != [] ==>
      && ps[0].seg.seqno == from && ps[0].seg.flags == PSH_ACK
      && Consecutive(ps[1..], U32(from + |ps[0].seg.text|))
  }

  // ---- What sleeping can change ----

  predicate Past(st: State) { !st.Established? && !st.CloseWait? && !st.Listen? && !st.SynSent? && !st.SynReceived? }

  /** Either the connection can still send, from the same SND.NXT, or it never will again. */
  predicate Undisturbed(p: Pcb, p': Pcb) {
    if CanSend(p) then (CanSend(p') && p'.sndNxt == p.sndNxt) || Past(p'.state) else Past(p'.state)
  }

  lemma AckUndisturbed(p: Pcb, s: Segment, local: Endpoint, foreign: Endpoint, destroyed: bool)
    requires CanSend(p) || Past(p.state)
    ensures Undisturbed(p, AckPhase(p, s, local, foreign, destroyed).pcb)
  {
  }

  lemma TextAndFinUndisturbed(p: Pcb, s: Segment)
    requires (CanSend(p) || Past(p.state)) && TextPhase(p, s).Done?
    ensures Undisturbed(p, TextPhase(p, s).pcb) && Undisturbed(p, FinPhase(TextPhase(p, s).pcb, s).pcb)
  {
  }

  lemma SegmentUndisturbed(p: Pcb, ev: Event)
    requires (CanSend(p) || Past(p.state)) && ev.DoSegment?
    ensures Undisturbed(p, Other(p, ev).pcb)
  {
    if p.state.Closed? || !Processed(p, ev.seg) {
      NotProcessed(p, ev);
    } else {
      InOrder(p, ev);
      AckUndisturbed(p, ev.seg, ev.local, ev.foreign, ev.destroyed);
      var p1 := AckPhase(p, ev.seg, ev.local, ev.foreign, ev.destroyed).pcb;
      if TextPhase(p1, ev.seg).Done? { TextAndFinUndisturbed(p1, ev.seg); }
    }
  }

  lemma OtherUndisturbed(p: Pcb, ev: Event)
    requires CanSend(p) || Past(p.state)
    ensures Undisturbed(p, Other(p, ev).pcb)
  {
    if ev.DoSegment? { SegmentUndisturbed(p, ev); }
  }

  lemma {:induction false} OthersUndisturbed(p: Pcb, evs: seq<Event>)
    requires CanSend(p) || Past(p.state)
    ensures Undisturbed(p, Others(p, evs).pcb)
    decreases |evs|
  {
    if evs == [] {
    } else {
      OtherUndisturbed(p, evs[0]);
      OthersUndisturbed(Other(p, evs[0]).pcb, evs[1..]);
    }
  }

  // ---- What tcp_send emits ----

  /**
   * What a run of tcp_send has done: the texts it emitted are the data in order, without gap or repetition; they follow
   * one another in sequence space; and a count it returns is where they end.
   */
  predicate Emits(r: SendRun, p: Pcb, data: seq<byte>, sent: nat) {
    && sent + |Texts(r.emitted)| <= |data|
    && Texts(r.emitted) == data[sent..sent + |Texts(r.emitted)|]
    && Consecutive(r.emitted, p.sndNxt)
    && (r.outcome.Sent? ==> r.outcome.count == sent + |Texts(r.emitted)|)
    && (CanSend(r.pcb) ==> r.pcb.sndNxt == U32(p.sndNxt + |Texts(r.emitted)|))
  }

  /** One segment put in front of the others. */
  lemma SendJoin(r: SendRun, p: Pcb, p1: Pcb, data: seq<byte>, sent: nat, slen: nat)
    requires sent + slen <= |data| && p1.sndNxt == U32(p.sndNxt + slen)
    requires Emits(r, p1, data, sent + slen)
    ensures Emits(r.(emitted := [Emit(p, PSH_ACK, data[sent..sent + slen])] + r.emitted), p, data, sent)
  {
    var all := [Emit(p, PSH_ACK, data[sent..sent + slen])] + r.emitted;
    assert all[1..] == r.emitted;
    assert Texts(all) == data[sent..sent + slen] + Texts(r.emitted);
    WrapAdds(p.sndNxt + slen, |Texts(r.emitted)|);
  }

  /** Nothing emitted yet. */
  lemma SendNothing(p: Pcb, o: Pcb, data: seq<byte>, sent: nat)
    requires sent <= |data| && (o == p || (CanSend(p) && Undisturbed(p, o)))
    ensures Emits(SendRun(o, Failed, []), p, data, sent) && Emits(SendRun(o, Blocked, []), p, data, sent)
    ensures Emits(SendRun(o, Interrupted, []), p, data, sent) && Emits(SendRun(o, Sent(sent), []), p, data, sent)
  {
  }

  lemma SendAfterSleep(r: SendRun, p: Pcb, o: Pcb, data: seq<byte>, sent: nat)
    requires CanSend(p) && Undisturbed(p, o) && Emits(r, o, data, sent) && (!CanSend(o) ==> r == SendRun(o, Failed, []))
    ensures Emits(r, p, data, sent)
  {
  }

  /** A turn whose `ip_output` fails. */
  lemma SendFails(p: Pcb, p': Pcb, data: seq<byte>, sent: nat, slen: nat)
    requires sent + slen <= |data| && !CanSend(p')
    ensures Emits(SendRun(p', Failed, [Emit(p, PSH_ACK, data[sent..sent + slen])]), p, data, sent)
  {
  }

  lemma SendTextFacts(p: Pcb, text: seq<byte>, t: Turn)
    requires CanSend(p)
    ensures var s := SendText(p, text, t.now, t.ok, t.destroyed);
            && s.sent == [Emit(p, PSH_ACK, text)]
            && (t.ok ==> CanSend(s.pcb) && s.pcb.sndNxt == U32(p.sndNxt + |text|))
            && (!t.ok ==> !CanSend(s.pcb))
  {
  }

  /** Whatever happens during its sleeps, and also when it fails half-way. */
  lemma {:induction false} SendEmitsTheData(p: Pcb, data: seq<byte>, sent: nat, mtu: Option<u16>, turns: seq<Turn>)
    requires sent <= |data| && (CanSend(p) || Past(p.state))
    ensures Emits(SendCall(p, data, sent, mtu, turns), p, data, sent)
    ensures !CanSend(p) ==> SendCall(p, data, sent, mtu, turns) == SendRun(p, Failed, [])
    decreases |turns|
  {
    hide Others, SendText, Capacity, Emits;
    assert Emits(SendRun(p, Failed, []), p, data, sent) && Emits(SendRun(p, Blocked, []), p, data, sent)
           && Emits(SendRun(p, Sent(sent), []), p, data, sent) by { SendNothing(p, p, data, sent); }
    if CanSend(p) && mtu.Some? && sent < |data| && turns != [] {
      var t := turns[0];
      if Capacity(p) == 0 {
        var o := Others(p, t.events).pcb;
        OthersUndisturbed(p, t.events);
        SendNothing(p, o, data, sent);
        if !t.interrupted {
          SendEmitsTheData(o, data, sent, mtu, turns[1..]);
          SendAfterSleep(SendCall(o, data, sent, mtu, turns[1..]), p, o, data, sent);
        }
      } else {
        var slen := TurnLength(p, data, sent, mtu.value);
        var p1 := SendText(p, data[sent..sent + slen], t.now, t.ok, t.destroyed).pcb;
        SendTextFacts(p, data[sent..sent + slen], t);
        if t.ok {
          SendEmitsTheData(p1, data, sent + slen, mtu, turns[1..]);
          SendJoin(SendCall(p1, data, sent + slen, mtu, turns[1..]), p, p1, data, sent, slen);
        } else {
          SendFails(p, p1, data, sent, slen);
        }
      }
    }
  }

  /** With an MTU above 40 no segment is empty, and none is refused by `ip_output` for its length. */
  lemma {:induction false} SendRespectsTheMtu(p: Pcb, data: seq<byte>, sent: nat, mtu: Option<u16>, turns: seq<Turn>)
    requires sent <= |data| && (mtu.Some? ==> mtu.value > 40)
    ensures forall k :: k in SendCall(p, data, sent, mtu, turns).emitted ==>
                          mtu.Some? && 0 < |k.seg.text| && 20 + (20 + |k.seg.text|) <= mtu.value
    decreases |turns|
  {
    if CanSend(p) && mtu.Some? && sent < |data| && turns != [] {
      var t := turns[0];
      if Capacity(p) == 0 {
        if !t.interrupted { SendRespectsTheMtu(Others(p, t.events).pcb, data, sent, mtu, turns[1..]); }
      } else if t.ok {
        var slen := TurnLength(p, data, sent, mtu.value);
        SendRespectsTheMtu(SendText(p, data[sent..sent + slen], t.now, true, t.destroyed).pcb, data, sent + slen,
                           mtu, turns[1..]);
      }
    }
  }

  // ---- Up to the first sleep ----

  /** A text cut into pieces of `n` octets and a last one. */
  function Pieces(text: seq<byte>, n: nat): seq<seq<byte>>
    requires n > 0
    decreases |text|
  {
    if text == [] then [] else if |text| <= n then [text] else [text[..n]] + Pieces(text[n..], n)
  }

  function TextsOf(ps: seq<Packet>): seq<seq<byte>> { if ps == [] then [] else [ps[0].seg.text] + TextsOf(ps[1..]) }

  /** The flight grows by `n` octets: modulo 2^32 the room that is left shrinks by as many. */
  lemma RoomLeft(wnd: u32, nxt: u32, una: u32, n: nat)
    requires n <= U32(wnd - U32(nxt - una))
    ensures U32(wnd - U32(U32(nxt + n) - una)) == U32(wnd - U32(nxt - una)) - n
  {
    var flight := U32(nxt - una);
    assert flight == if nxt >= una then nxt - una else nxt - una + TWO32;
    var flight' := U32(U32(nxt + n) - una);
    assert flight' == if flight + n < TWO32 then flight + n else flight + n - TWO32;
  }

  lemma EnqueueKeeps(p: Pcb, text: seq<byte>, now: Timeval)
    ensures var p' := Enqueue(p, PSH_ACK, text, now);
            p'.state == p.state && p'.sndNxt == p.sndNxt && p'.sndUna == p.sndUna && p'.sndWnd == p.sndWnd
  {
  }

  lemma TurnUsesRoom(p: Pcb, data: seq<byte>, sent: nat, mtu: u16, t: Turn)
    requires CanSend(p) && sent < |data| && mtu != 40 && Capacity(p) != 0 && t.ok
    ensures var slen, room := TurnLength(p, data, sent, mtu), Min(|data| - sent, Capacity(p));
            var s := SendText(p, data[sent..sent + slen], t.now, true, t.destroyed);
            && 0 < slen == Min(Mss(mtu), room)
            && CanSend(s.pcb) && Capacity(s.pcb) == Capacity(p) - slen
            && |s.sent| == 1 && s.sent[0].seg.text == data[sent..sent + slen]
  {
    var slen := TurnLength(p, data, sent, mtu);
    RoomLeft(p.sndWnd, p.sndNxt, p.sndUna, slen);
    hide Emit, U32, Enqueue;
    EnqueueKeeps(p, data[sent..sent + slen], t.now);
  }

  lemma FirstPiece(data: seq<byte>, i: nat, slen: nat, room: nat, n: nat)
    requires 0 < slen == Min(n, room) && i + room <= |data|
    ensures Pieces(data[i..i + room], n) == [data[i..i + slen]] + Pieces(data[i + slen..i + room], n)
  {
    var text := data[i..i + room];
    assert text[..slen] == data[i..i + slen] && text[slen..] == data[i + slen..i + room];
  }

  lemma SendStops(p: Pcb, data: seq<byte>, sent: nat, mtu: u16, turns: seq<Turn>)
    requires CanSend(p) && sent <= |data| && (sent == |data| || Capacity(p) == 0) && mtu != 40
    requires turns != [] && turns[0].interrupted
    ensures var r := SendCall(p, data, sent, Some(mtu), turns);
            r.emitted == [] && r.outcome == (if sent == 0 < |data| then Interrupted else Sent(sent))
    ensures Pieces(data[sent..sent], Mss(mtu)) == []
  {
  }

  /**
   * Up to its first sleep tcp_send fills the window, in full segments: the segments are the pieces of as much of the
   * data as there is room for. A call that is interrupted there returns how much that was, or -1 for nothing.
   */
  lemma {:induction false} SendFillsTheWindow(p: Pcb, data: seq<byte>, sent: nat, mtu: u16, turns: seq<Turn>)
    requires CanSend(p) && sent <= |data| && mtu != 40
    requires |turns| > |data| - sent && forall t :: t in turns ==> t.ok && t.interrupted
    ensures var room := Min(|data| - sent, Capacity(p));
            var r := SendCall(p, data, sent, Some(mtu), turns);
            && TextsOf(r.emitted) == Pieces(data[sent..sent + room], Mss(mtu))
            && r.outcome == (if sent + room == 0 < |data| then Interrupted else Sent(sent + room))
    decreases |turns|
  {
    hide SendText, SendCall, Pieces, Mss, Others, TurnLength, Capacity;
    if sent == |data| || Capacity(p) == 0 {
      assert turns[0] in turns;
      SendStops(p, data, sent, mtu, turns);
    } else {
      var room := Min(|data| - sent, Capacity(p));
      var t, slen := turns[0], TurnLength(p, data, sent, mtu);
      assert t in turns;
      TurnUsesRoom(p, data, sent, mtu, t);
      var s := SendText(p, data[sent..sent + slen], t.now, true, t.destroyed);
      SendCallEmits(p, data, sent, Some(mtu), turns);
      SendFillsTheWindow(s.pcb, data, sent + slen, mtu, turns[1..]);
      FirstPiece(data, sent, slen, room, Mss(mtu));
      var rest := SendCall(s.pcb, data, sent + slen, Some(mtu), turns[1..]);
      assert (s.sent + rest.emitted)[1..] == rest.emitted;
    }
  }
}
