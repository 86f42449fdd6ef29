/**
 The PCB as tcp.c keeps it: fields updated in place, a fixed receive buffer, a queue that is popped and visited.
 Every method is one function of tcp.c and is proved to do what `Tcp` says about the PCB as a value. `wire` is the
 sequence of segments handed to `ip_output`.
 */
module TcpSlot {
  import opened Base
  import opened Time
  import opened Tcp
  import TcpRun
  import opened TcpSend

  /** The `snd` and `rcv` members of a PCB. */
  datatype SndVars = SndVars(nxt: u32, una: u32, wnd: u16, wl1: u32, wl2: u32)
  datatype RcvVars = RcvVars(nxt: u32, wnd: u16)

  datatype Opening = StillOpening | Connected | OpenFailed

  class Slot {
    var state: State
    var local: Endpoint
    var foreign: Endpoint
    var snd: SndVars
    var iss: u32
    var rcv: RcvVars
    var irs: u32
    const buf: array<byte>
    var queue: seq<Entry>
    var wire: seq<Packet>

    ghost var Bytes: Buffer  // what the buffer holds

    ghost predicate Valid()
      reads this`Bytes, buf
    {
      buf.Length == BUF_SIZE && buf[..] == Bytes
    }

    /** The PCB as a value. */
    ghost function View(): Pcb
      reads this
    {
      Pcb(state, local, foreign, snd.nxt, snd.una, snd.wnd, snd.wl1, snd.wl2, iss, rcv.nxt, rcv.wnd, irs, Bytes, queue)
    }

    constructor ()
      ensures Valid() && fresh(buf)
      ensures View() == ZeroPcb() && wire == []
    {
      state, local, foreign := Free, ANY_ENDPOINT, ANY_ENDPOINT;
      snd, iss, rcv, irs := SndVars(0, 0, 0, 0, 0), 0, RcvVars(0, 0), 0;
      buf := new byte[65535](i => 0);
      queue, wire := [], [];
      Bytes := ZeroBuffer();
      new;
      assert buf[..] == Bytes;
    }

    /** tcp_output_segment, as far as the PCB is concerned: the segment goes to `ip_output`. */
    method OutputSegment(seqno: u32, ack: u32, flags: Flags, wnd: u16, text: seq<byte>, src: Endpoint, dst: Endpoint)
      requires Valid()
      modifies this`wire
      ensures Valid()
      ensures View() == old(View())
      ensures wire == old(wire) + [Packet(src, dst, Segment(seqno, ack, flags, wnd, text))]
    {
      wire := wire + [Packet(src, dst, Segment(seqno, ack, flags, wnd, text))];
    }

    /** tcp_retransmit_queue_add. */
    method RetransmitQueueAdd(seqno: u32, flags: Flags, text: seq<byte>, now: Timeval)
      requires Valid()
      modifies this`queue
      ensures Valid()
      ensures View() == old(View()).(queue := old(queue) + [Entry(now, now, DEFAULT_RTO, seqno, flags, text)])
    {
      var entry := Entry(now, now, DEFAULT_RTO, seqno, flags, text);
      queue := queue + [entry];
    }

    /** tcp_retransmit_queue_cleanup. */
    method RetransmitQueueCleanup()
      requires Valid()
      modifies this`queue
      ensures Valid()
      ensures View() == old(View()).(queue := Cleanup(old(queue), snd.una))
    {
      while queue != []
        invariant Valid()
        invariant Cleanup(queue, snd.una) == Cleanup(old(queue), snd.una)
        decreases |queue|
      {
        var entry := queue[0];
        if entry.seqno >= snd.una {
          break;
        }
        queue := queue[1..];
      }
    }

    /** tcp_retransmit_queue_emit on the entry at `i`. */
    method RetransmitQueueEmit(i: nat, now: Timeval)
      requires Valid() && i < |queue| && ClocksNormal(queue) && Normal(now)
      modifies this`queue, this`state, this`wire
      ensures Valid()
      ensures View() == Tick(old(View()), i, now).pcb
      ensures wire == old(wire) + Tick(old(View()), i, now).sent
      ensures |queue| == |old(queue)| && ClocksNormal(queue)
    {
      var entry := queue[i];
      var diff := Sub(now, entry.first);
      if diff.sec >= RETRANSMIT_DEADLINE {
        state := Closed;
        return;
      }
      var timeout := AddUsec(entry.last, entry.rto);
      if After(now, timeout) {
        OutputSegment(entry.seqno, rcv.nxt, entry.flags, rcv.wnd, entry.text, local, foreign);
        queue := queue[i := entry.(last := now, rto := entry.rto * 2)];
      }
    }

    /** tcp_timer's visit to this slot: every entry of the queue in turn, each with its own clock reading. */
    method Timer(clock: seq<Timeval>)
      requires Valid() && |clock| == |queue| && ClocksNormal(queue)
      requires forall i :: 0 <= i < |clock| ==> Normal(clock[i])
      modifies this`queue, this`state, this`wire
      ensures Valid()
      ensures View() == TickAll(old(View()), clock).pcb
      ensures wire == old(wire) + TickAll(old(View()), clock).sent
    {
      hide Tick;
      var i := 0;
      assert clock[..0] == [];
      while i < |queue|
        invariant Valid() && 0 <= i <= |queue| == |clock| && ClocksNormal(queue)
        invariant ClocksNormal(old(queue)) && |old(queue)| == |clock|
        invariant View() == TickAll(old(View()), clock[..i]).pcb
        invariant wire == old(wire) + TickAll(old(View()), clock[..i]).sent
      {
        assert clock[..i + 1][..i] == clock[..i];
        RetransmitQueueEmit(i, clock[i]);
        i := i + 1;
      }
      assert clock[..i] == clock;
    }

    /** tcp_output. */
    method Output(flags: Flags, text: seq<byte>, now: Timeval)
      requires Valid()
      modifies this`queue, this`wire
      ensures Valid()
      ensures View() == Enqueue(old(View()), flags, text, now)
      ensures wire == old(wire) + [Emit(old(View()), flags, text)]
    {
      var seqno := snd.nxt;
      if flags.syn {
        seqno := iss;
      }
      if flags.syn || flags.fin || text != [] {
        RetransmitQueueAdd(seqno, flags, text, now);
      }
      OutputSegment(seqno, rcv.nxt, flags, rcv.wnd, text, local, foreign);
    }

    /** A bare acknowledgement takes no sequence space and is not queued. */
    method OutputAck()
      requires Valid()
      modifies this`wire
      ensures Valid()
      ensures View() == old(View())
      ensures wire == old(wire) + [Emit(old(View()), ACK, [])]
    {
      OutputSegment(snd.nxt, rcv.nxt, ACK, rcv.wnd, [], local, foreign);
    }

    /** tcp_pcb_release. */
    method PcbRelease(destroyed: bool)
      requires Valid()
      modifies this, buf
      ensures Valid()
      ensures View() == Release(old(View()), destroyed) && wire == old(wire)
    {
      if !destroyed {
        return;
      }
      state, local, foreign := Free, ANY_ENDPOINT, ANY_ENDPOINT;
      snd, iss, rcv, irs := SndVars(0, 0, 0, 0, 0), 0, RcvVars(0, 0), 0;
      queue := [];
      forall i | 0 <= i < buf.Length { buf[i] := 0; }
      Bytes := ZeroBuffer();
      assert buf[..] == Bytes;
    }

    // ---- SEGMENT ARRIVES ----

    method ArriveListen(s: Segment, local: Endpoint, foreign: Endpoint, iss: u32, now: Timeval)
      requires Valid()
      modifies this
      ensures Valid()
      ensures var r := ArrivesListen(old(View()), s, local, foreign, iss, now);
              View() == r.pcb && wire == old(wire) + r.sent
    {
      if s.flags.rst {
        return;
      }
      if s.flags.ack {
        OutputSegment(s.ack, 0, RST, 0, [], local, foreign);
        return;
      }
      if s.flags.syn {
        this.local := local;
        this.foreign := foreign;
        rcv := RcvVars(U32(s.seqno + 1), BUF_SIZE);
        irs := s.seqno;
        this.iss := iss;
        assert View() == old(View()).(local := local, foreign := foreign, rcvWnd := BUF_SIZE,
                                      rcvNxt := U32(s.seqno + 1), irs := s.seqno, iss := iss);
        Output(SYN_ACK, [], now);
        snd := snd.(nxt := U32(iss + 1), una := iss);
        state := SynReceived;
      }
    }

    method ArriveSynSent(s: Segment, local: Endpoint, foreign: Endpoint, now: Timeval)
      requires Valid()
      modifies this
      ensures Valid()
      ensures var r := ArrivesSynSent(old(View()), s, local, foreign, now);
              View() == r.pcb && wire == old(wire) + r.sent
    {
      var acceptable := false;
      if s.flags.ack {
        if s.ack <= iss || s.ack > snd.nxt {
          OutputSegment(s.ack, 0, RST, 0, [], local, foreign);
          return;
        }
        if snd.una <= s.ack && s.ack <= snd.nxt {
          acceptable := true;
        }
      }
      if s.flags.syn {
        rcv := rcv.(nxt := U32(s.seqno + 1));
        irs := s.seqno;
        ghost var p1 := old(View()).(rcvNxt := U32(s.seqno + 1), irs := s.seqno);
        assert View() == p1;
        if acceptable {
          snd := snd.(una := s.ack);
          RetransmitQueueCleanup();
        }
        ghost var p2 := if acceptable then p1.(sndUna := s.ack, queue := Cleanup(p1.queue, s.ack)) else p1;
        assert View() == p2;
        if snd.una > iss {
          state := Established;
          OutputAck();
          snd := snd.(wnd := s.wnd, wl1 := s.seqno, wl2 := s.ack);
        } else {
          state := SynReceived;
          Output(SYN_ACK, [], now);
        }
      }
    }

    /** The sequence number check. */
    method SequenceCheck(s: Segment) returns (acceptable: bool)
      requires Valid()
      ensures acceptable == Acceptable(View(), s)
    {
      acceptable := false;
      match state {
        case SynReceived | Established | FinWait1 | FinWait2 | CloseWait | LastAck =>
          if SegLen(s) == 0 {
            if rcv.wnd == 0 {
              if s.seqno == rcv.nxt {
                acceptable := true;
              }
            } else if rcv.nxt <= s.seqno && s.seqno < U32(rcv.nxt + rcv.wnd) {
              acceptable := true;
            }
          } else if rcv.wnd != 0 {
            var end := U32(s.seqno + SegLen(s) - 1);
            if (rcv.nxt <= s.seqno && s.seqno < U32(rcv.nxt + rcv.wnd))
               || (rcv.nxt <= end && end < U32(rcv.nxt + rcv.wnd)) {
              acceptable := true;
            }
          }
        case _ =>
      }
    }

    /** The ACK field in the states that still take acknowledgements. */
    method AckFieldOpen(s: Segment) returns (go: bool)
      requires Valid()
      modifies this
      ensures Valid()
      ensures var r := AckOpen(old(View()), s);
              go == r.Go? && View() == r.pcb && wire == old(wire) + (if go then [] else r.sent)
    {
      if snd.una < s.ack && s.ack <= snd.nxt {
        snd := snd.(una := s.ack);
        RetransmitQueueCleanup();
        if snd.wl1 < s.seqno || (snd.wl1 == s.seqno && snd.wl2 <= s.ack) {
          snd := snd.(wnd := s.wnd, wl1 := s.seqno, wl2 := s.ack);
        }
      } else if s.ack < snd.una {
        // ignore
      } else if s.ack > snd.nxt {
        OutputAck();
        return false;
      }
      if state.FinWait1? {
        if s.ack == snd.nxt {
          state := FinWait2;
        }
      }
      return true;
    }

    /** The ACK field; `go` tells whether the text and the FIN are looked at. */
    method AckField(s: Segment, local: Endpoint, foreign: Endpoint, destroyed: bool) returns (go: bool)
      requires Valid()
      modifies this, buf
      ensures Valid()
      ensures var r := AckPhase(old(View()), s, local, foreign, destroyed);
              go == r.Go? && View() == r.pcb && wire == old(wire) + (if go then [] else r.sent)
    {
      match state {
        case SynReceived =>
          if snd.una <= s.ack && s.ack <= snd.nxt {
            state := Established;
            go := AckFieldOpen(s);
          } else {
            OutputSegment(s.ack, 0, RST, 0, [], local, foreign);
            go := false;
          }
        case Established | FinWait1 | FinWait2 | CloseWait =>
          go := AckFieldOpen(s);
        case LastAck =>
          if s.ack == snd.nxt {
            state := Closed;
            PcbRelease(destroyed);
          }
          go := false;
        case _ =>
          go := true;
      }
    }

    /** The segment text: copied behind what waits in the buffer, unless it would not fit. */
    method SegmentText(s: Segment) returns (overrun: bool)
      requires Valid()
      modifies this, buf
      ensures Valid()
      ensures var r := TextPhase(old(View()), s);
              overrun == r.Overrun? && (r.Done? ==> View() == r.pcb && wire == old(wire) + r.sent)
    {
      if (state.Established? || state.FinWait1? || state.FinWait2?) && |s.text| > 0 {
        if |s.text| > rcv.wnd {
          return true;
        }
        var at := BUF_SIZE - rcv.wnd;
        forall i | 0 <= i < |s.text| { buf[at + i] := s.text[i]; }
        Bytes := Splice(Bytes, at, s.text);
        assert buf[..] == Bytes;
        rcv := RcvVars(U32(s.seqno + SegLen(s)), rcv.wnd - |s.text|);
        OutputAck();
      }
      return false;
    }

    /** The FIN bit. */
    method FinBit(s: Segment)
      requires Valid()
      modifies this
      ensures Valid()
      ensures var r := FinPhase(old(View()), s);
              View() == r.pcb && wire == old(wire) + r.sent
    {
      if s.flags.fin {
        match state {
          case Closed | Listen => return;
          case _ =>
        }
        rcv := rcv.(nxt := U32(s.seqno + 1));
        OutputAck();
        match state {
          case SynReceived | Established =>
            state := CloseWait;
          case FinWait1 =>
            if s.ack == snd.nxt {
              state := TimeWait;
            } else {
              state := Closing;
            }
          case FinWait2 =>
            state := TimeWait;
          case _ =>
        }
      }
    }

    method ArriveOther(s: Segment, local: Endpoint, foreign: Endpoint, destroyed: bool) returns (overrun: bool)
      requires Valid()
      modifies this, buf
      ensures Valid()
      ensures var r := ArrivesOther(old(View()), s, local, foreign, destroyed);
              overrun == r.Overrun? && (r.Done? ==> View() == r.pcb && wire == old(wire) + r.sent)
    {
      var acceptable := SequenceCheck(s);
      if !acceptable {
        if !s.flags.rst {
          OutputAck();
        }
        return false;
      }
      if !s.flags.ack {
        return false;
      }
      var go := AckField(s, local, foreign, destroyed);
      if !go {
        return false;
      }
      overrun := SegmentText(s);
      if !overrun {
        FinBit(s);
      }
    }

    /** tcp_segment_arrives for the PCB that was selected. */
    method SegmentArrives(s: Segment, local: Endpoint, foreign: Endpoint, iss: u32, now: Timeval, destroyed: bool)
      returns (overrun: bool)
      requires Valid()
      modifies this, buf
      ensures Valid()
      ensures var r := Arrives(old(View()), s, local, foreign, iss, now, destroyed);
              overrun == r.Overrun? && (r.Done? ==> View() == r.pcb && wire == old(wire) + r.sent)
    {
      overrun := false;
      match state {
        case Closed =>
          if s.flags.rst {
            return;
          }
          if !s.flags.ack {
            OutputSegment(0, U32(s.seqno + SegLen(s)), RST_ACK, 0, [], local, foreign);
          } else {
            OutputSegment(s.ack, 0, RST, 0, [], local, foreign);
          }
        case Listen =>
          ArriveListen(s, local, foreign, iss, now);
        case SynSent =>
          ArriveSynSent(s, local, foreign, now);
        case _ =>
          overrun := ArriveOther(s, local, foreign, destroyed);
      }
    }

    // ---- User calls ----

    /** The active branch of tcp_open_rfc793, up to its first sleep. */
    method ConnectStart(local: Endpoint, foreign: Endpoint, iss: u32, now: Timeval, ok: bool, destroyed: bool)
      returns (r: int)
      requires Valid()
      modifies this, buf
      ensures Valid()
      ensures var s := OpenActive(old(View()), local, foreign, iss, now, ok, destroyed);
              View() == s.pcb && wire == old(wire) + s.sent
      ensures r == -1 <==> !ok
    {
      state := Closed;
      this.local := local;
      this.foreign := foreign;
      rcv := rcv.(wnd := BUF_SIZE);
      this.iss := iss;
      assert View() ==
             old(View()).(state := Closed, local := local, foreign := foreign, rcvWnd := BUF_SIZE, iss := iss);
      Output(SYN, [], now);
      if !ok {
        state := Closed;
        PcbRelease(destroyed);
        return -1;
      }
      snd := snd.(una := iss, nxt := U32(iss + 1));
      state := SynSent;
      return 0;
    }

    /** The passive branch of tcp_open_rfc793, up to its first sleep. */
    method ListenStart(local: Endpoint, foreign: Option<Endpoint>)
      requires Valid()
      modifies this
      ensures Valid()
      ensures View() == OpenPassive(old(View()), local, foreign) && wire == old(wire)
    {
      state := Closed;
      this.local := local;
      if foreign.Some? {
        this.foreign := foreign.value;
      }
      state := Listen;
    }

    /**
     * What tcp_open_rfc793 does when a sleep returns, with an error or not, in a state that may differ from the state
     * `before` the sleep.
     */
    method OpenWake(before: State, error: bool, destroyed: bool) returns (r: Opening)
      requires Valid()
      modifies this, buf
      ensures Valid() && wire == old(wire)
      ensures r.Connected? <==> !error && old(state) != before && old(state).Established?
      ensures r.StillOpening? <==> !error && (old(state) == before || old(state).SynReceived?)
      ensures View() == if r.OpenFailed? then Abort(old(View()), destroyed) else old(View())
    {
      if !error {
        if state == before || state.SynReceived? {
          return StillOpening;
        }
        if state.Established? {
          return Connected;
        }
      }
      state := Closed;
      PcbRelease(destroyed);
      return OpenFailed;
    }

    /** tcp_close. */
    method Close(now: Timeval) returns (r: int)
      requires Valid()
      modifies this
      ensures Valid()
      ensures r == (if CanSend(old(View())) then 0 else -1)
      ensures if CanSend(old(View())) then
                var s := CloseCall(old(View()), now);
                View() == s.pcb && wire == old(wire) + s.sent
              else View() == old(View()) && wire == old(wire)
    {
      match state {
        case Established =>
          Output(FIN_ACK, [], now);
          snd := snd.(nxt := U32(snd.nxt + 1));
          state := FinWait1;
        case CloseWait =>
          Output(FIN_ACK, [], now);
          snd := snd.(nxt := U32(snd.nxt + 1));
          state := LastAck;
        case _ =>
          return -1;
      }
      return 0;
    }

    /** The PCB's present contents. */
    function Snapshot(): (p: Pcb)
      requires Valid()
      reads this, buf
      ensures p == View()
    {
      Pcb(state, local, foreign, snd.nxt, snd.una, snd.wnd, snd.wl1, snd.wl2, iss, rcv.nxt, rcv.wnd, irs, buf[..],
          queue)
    }

    /** The critical sections other threads run while the caller sleeps. */
    method Sleep(events: seq<TcpRun.Event>)
      requires Valid()
      modifies this, buf
      ensures Valid()
      ensures var r := Others(old(View()), events);
              View() == r.pcb && wire == old(wire) + r.sent
    {
      var r := Others(Snapshot(), events);
      var p := r.pcb;
      state, local, foreign, iss, irs, queue := p.state, p.local, p.foreign, p.iss, p.irs, p.queue;
      snd := SndVars(p.sndNxt, p.sndUna, p.sndWnd, p.wl1, p.wl2);
      rcv := RcvVars(p.rcvNxt, p.rcvWnd);
      forall i | 0 <= i < BUF_SIZE { buf[i] := p.buf[i]; }
      Bytes := p.buf;
      assert buf[..] == Bytes;
      wire := wire + r.sent;
    }

    /** One turn of tcp_send's loop. */
    method SendTurn(text: seq<byte>, now: Timeval, ok: bool, destroyed: bool)
      requires Valid()
      modifies this, buf
      ensures Valid()
      ensures var r := SendText(old(View()), text, now, ok, destroyed);
              View() == r.pcb && wire == old(wire) + r.sent
    {
      Output(PSH_ACK, text, now);
      if !ok {
        state := Closed;
        PcbRelease(destroyed);
        return;
      }
      snd := snd.(nxt := U32(snd.nxt + |text|));
    }

    /** Inside tcp_send's loop: sleep when the window is full, otherwise emit the next segment. */
    method SendOrSleep(data: seq<byte>, sent: nat, mtu: u16, t: Turn)
      returns (slept: bool, slen: nat, out: seq<Packet>)
      requires Valid() && CanSend(View()) && sent < |data|
      modifies this, buf
      ensures Valid() && slept == (Capacity(old(View())) == 0)
      ensures slept ==> View() == Others(old(View()), t.events).pcb && slen == 0 && out == []
      ensures !slept ==>
                && slen == TurnLength(old(View()), data, sent, mtu)
                && var r := SendText(old(View()), data[sent..sent + slen], t.now, t.ok, t.destroyed);
                   View() == r.pcb && out == r.sent
    {
      hide Others, SendText;
      var cap := U32(snd.wnd - U32(snd.nxt - snd.una));
      if cap == 0 {
        Sleep(t.events);
        return true, 0, [];
      }
      slen := Min(Min(Mss(mtu), |data| - sent), cap);
      var text := data[sent..sent + slen];
      SendTextFacts(View(), text, t);
      out := [Packet(local, foreign, Segment(snd.nxt, rcv.nxt, PSH_ACK, rcv.wnd, text))];
      SendTurn(text, t.now, t.ok, t.destroyed);
      return false, slen, out;
    }

    /** tcp_send. `emitted` collects the segments this call handed to tcp_output. */
    method Send(data: seq<byte>, mtu: Option<u16>, turns: seq<Turn>) returns (outcome: Outcome, emitted: seq<Packet>)
      requires Valid()
      modifies this, buf
      ensures Valid()
      ensures SendRun(View(), outcome, emitted) == SendCall(old(View()), data, 0, mtu, turns)
    {
      hide SendCall, Others, SendText, Capacity;
      emitted := [];
      var sent: nat := 0;
      var k := 0;
      ghost var whole := SendCall(View(), data, 0, mtu, turns);
      assert turns[0..] == turns && [] + whole.emitted == whole.emitted;
      while k < |turns|
        invariant Valid() && 0 <= k <= |turns| && sent <= |data|
        invariant Resumes(whole, emitted, SendCall(View(), data, sent, mtu, turns[k..]))
      {
        ghost var p, rest := View(), turns[k..];
        SendCallEnds(p, data, sent, mtu, rest);
        if !(state.Established? || state.CloseWait?) {
          return Failed, emitted;
        }
        if mtu.None? {
          return Failed, emitted;
        }
        if sent == |data| {
          break;
        }
        var t := turns[k];
        assert rest[0] == t && rest[1..] == turns[k + 1..];
        var slept, slen, out := SendOrSleep(data, sent, mtu.value, t);
        k := k + 1;
        if slept {
          SendCallSleeps(p, data, sent, mtu, rest);
          if t.interrupted {
            return if sent == 0 then Interrupted else Sent(sent), emitted;
          }
        } else {
          SendCallEmits(p, data, sent, mtu, rest);
          emitted := emitted + out;
          if !t.ok {
            return Failed, emitted;
          }
          sent := sent + slen;
        }
      }
      SendCallEnds(View(), data, sent, mtu, turns[k..]);
      if !(state.Established? || state.CloseWait?) || mtu.None? {
        return Failed, emitted;
      }
      return if sent == |data| then Sent(sent) else Blocked, emitted;
    }

    /** memmove of `rest` to the front of the buffer. */
    method MoveFront(rest: seq<byte>)
      requires |rest| <= buf.Length
      modifies buf
      ensures buf[..] == rest + old(buf[..])[|rest|..]
    {
      forall i | 0 <= i < |rest| { buf[i] := rest[i]; }
    }

    /** memcpy of the first `len` waiting octets out, then memmove of the rest to the front. */
    method TakeFront(len: nat) returns (data: seq<byte>)
      requires Valid() && len <= BUF_SIZE - rcv.wnd
      modifies this`rcv, this`Bytes, buf
      ensures Valid()
      ensures Got(View(), data) == Take(old(View()), len) && wire == old(wire)
    {
      hide Take;
      var remain := BUF_SIZE - rcv.wnd;
      ghost var was := Bytes;
      data := buf[..len];
      assert data == was[..len];
      var rest := buf[len..remain];
      assert rest == was[len..remain];
      MoveFront(rest);
      Bytes := was[len..remain] + was[remain - len..];
      rcv := rcv.(wnd := rcv.wnd + len);
      TakeIs(old(View()), len);
    }

    /**
     * One pass of tcp_receive: `r` is the octet count, 0 at the end of the stream, -1 in a wrong state, and nothing
     * when the caller has to sleep first.
     */
    method Receive(size: nat) returns (r: Option<int>, data: seq<byte>)
      requires Valid()
      modifies this`rcv, this`Bytes, buf
      ensures Valid() && wire == old(wire)
      ensures match ReceiveCall(old(View()), size)
              case Got(p, d) => View() == p && data == d && r == Some(|d|)
              case MustSleep => View() == old(View()) && r == None
              case EndOfStream => View() == old(View()) && r == Some(0)
              case WrongState => View() == old(View()) && r == Some(-1)
    {
      data := [];
      var remain := BUF_SIZE - rcv.wnd;
      match state {
        case Established =>
          if remain == 0 {
            return None, [];
          }
        case CloseWait =>
          if remain == 0 {
            return Some(0), [];
          }
        case _ =>
          return Some(-1), [];
      }
      var len := Min(size, remain);
      data := TakeFront(len);
      return Some(len), data;
    }
  }

  lemma TakeIs(p: Pcb, len: nat)
    requires len <= BUF_SIZE - p.rcvWnd
    ensures var remain := BUF_SIZE - p.rcvWnd;
            Take(p, len) == Got(p.(buf := p.buf[len..remain] + p.buf[remain - len..], rcvWnd := p.rcvWnd + len),
                                p.buf[..len])
  {
  }

  /** The timer's visit to the first |clock| entries of a queue. */
  function TickAll(p: Pcb, clock: seq<Timeval>): (r: Step)
    requires |clock| <= |p.queue| && ClocksNormal(p.queue)
    requires forall i :: 0 <= i < |clock| ==> Normal(clock[i])
    ensures |r.pcb.queue| == |p.queue| && ClocksNormal(r.pcb.queue)
  {
    if clock == [] then Step(p, [])
    else
      var n := |clock| - 1;
      var before := TickAll(p, clock[..n]);
      var last := Tick(before.pcb, n, clock[n]);
      Step(last.pcb, before.sent + last.sent)
  }

  /** A run that has emitted `before` and goes on as `rest`. */
  ghost predicate Resumes(whole: SendRun, before: seq<Packet>, rest: SendRun) {
    whole == SendRun(rest.pcb, rest.outcome, before + rest.emitted)
  }
}
