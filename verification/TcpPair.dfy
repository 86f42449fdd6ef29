/**
 Two endpoints, one that opens actively and one that opens passively, joined by two first-in first-out channels.
 The timers may repeat queued segments; the network loses, reorders and invents nothing. One connection is followed
 from the first open to the end, with at most 2^30 octets each way.
 */
module TcpPair {
  import opened Base
  import opened Time
  import opened Tcp
  import opened Link

  const MAX_OCTETS: int := 0x4000_0000

  /**
   * An endpoint and its history. `last` is the PCB, or its contents when its slot was cleared; `stream` the octets
   * tcp_send accepted; `fin` whether tcp_close sent a FIN; `got` the octets tcp_receive handed out; `heard` and `top`
   * the last acknowledgement and the highest sequence number that arrived; `overrun` whether text was ever copied past
   * the end of the receive buffer.
   */
  datatype Side = Side(pcb: Pcb, last: Pcb, stream: seq<byte>, fin: bool, got: seq<byte>, heard: nat, top: nat,
                       overrun: bool)

  datatype Net = Net(a: Side, b: Side, ab: seq<Segment>, ba: seq<Segment>)

  datatype Action =
    | Open(local: Endpoint, foreign: Endpoint, iss: u32, now: Timeval)
    | Deliver(local: Endpoint, foreign: Endpoint, iss: u32, now: Timeval, destroyed: bool)
    | Send(text: seq<byte>, now: Timeval)
    | Receive(size: nat)
    | Close(now: Timeval)
    | Timer(index: nat, now: Timeval)
    | Interrupt(destroyed: bool)

  /** A side with the segments on their way to it and from it. */
  datatype Move = Move(me: Side, inbox: seq<Segment>, outbox: seq<Segment>)

  function Segs(ps: seq<Packet>): seq<Segment> { if ps == [] then [] else [ps[0].seg] + Segs(ps[1..]) }

  function Put(x: Side, p: Pcb): Side { x.(pcb := p, last := if p.state.Free? then x.last else p) }

  function HearOn(x: Side, m: Segment): Side {
    if Carries(m) then x.(heard := m.ack, top := Max(x.top, m.seqno)) else x
  }

  function DoOpen(v: Move, passive: bool, act: Action): Move
    requires act.Open?
  {
    if !(v.me.pcb.state.Free? && v.me.last.state.Free?) then v
    else if passive then v.(me := Put(v.me, OpenPassive(v.me.pcb, act.local, None)))
    else
      var r := OpenActive(v.me.pcb, act.local, act.foreign, act.iss, act.now, true, true);
      v.(me := Put(v.me, r.pcb), outbox := v.outbox + Segs(r.sent))
  }

  function DoDeliver(v: Move, act: Action): Move
    requires act.Deliver? && v.inbox != []
  {
    var m, x, rest := v.inbox[0], HearOn(v.me, v.inbox[0]), v.inbox[1..];
    if x.pcb.state.Free? then Move(x, rest, v.outbox + Segs(ClosedReply(m, act.local, act.foreign)))
    else
      match Arrives(x.pcb, m, act.local, act.foreign, act.iss, act.now, act.destroyed)
      case Done(p, sent) => Move(Put(x, p), rest, v.outbox + Segs(sent))
      case Overrun => v.(me := v.me.(overrun := true))
  }

  /** One turn of tcp_send: some non-empty text that fits a segment and the computed capacity. */
  predicate MaySend(x: Side, text: seq<byte>) {
    && CanSend(x.pcb) && text != [] && |text| <= MAX_TEXT && |text| <= Capacity(x.pcb)
    && |x.stream| + |text| <= MAX_OCTETS
  }

  /** One critical section of one endpoint; an action that cannot happen changes nothing. */
  function Act(v: Move, passive: bool, act: Action): Move {
    match act
    case Open(_, _, iss, _) => if iss < TWO31 then DoOpen(v, passive, act) else v
    case Deliver(_, _, iss, _, _) => if iss < TWO31 && v.inbox != [] then DoDeliver(v, act) else v
    case Send(text, now) =>
      if !MaySend(v.me, text) then v
      else
        var r := SendText(v.me.pcb, text, now, true, true);
        v.(me := Put(v.me, r.pcb).(stream := v.me.stream + text), outbox := v.outbox + Segs(r.sent))
    case Receive(size) =>
      (match ReceiveCall(v.me.pcb, size)
       case Got(p, data) => v.(me := Put(v.me, p).(got := v.me.got + data))
       case _ => v)
    case Close(now) =>
      if !CanSend(v.me.pcb) then v
      else
        var r := CloseCall(v.me.pcb, now);
        v.(me := Put(v.me, r.pcb).(fin := true), outbox := v.outbox + Segs(r.sent))
    case Timer(i, now) =>
      if !(i < |v.me.pcb.queue| && ClocksNormal(v.me.pcb.queue) && Normal(now)) then v
      else
        var r := Tick(v.me.pcb, i, now);
        v.(me := Put(v.me, r.pcb), outbox := v.outbox + Segs(r.sent))
    case Interrupt(destroyed) =>
      if v.me.pcb.state.Free? then v else v.(me := Put(v.me, Abort(v.me.pcb, destroyed)))
  }

  datatype Step = AtA(act: Action) | AtB(act: Action)

  function Next(n: Net, step: Step): Net {
    match step
    case AtA(act) => var v := Act(Move(n.a, n.ba, n.ab), false, act); Net(v.me, n.b, v.outbox, v.inbox)
    case AtB(act) => var v := Act(Move(n.b, n.ab, n.ba), true, act); Net(n.a, v.me, v.inbox, v.outbox)
  }

  function NewSide(): Side { Side(ZeroPcb(), ZeroPcb(), [], false, [], 0, 0, false) }

  function Init(): Net { Net(NewSide(), NewSide(), [], []) }

  function Run(n: Net, steps: seq<Step>): Net
    decreases |steps|
  {
    if steps == [] then n else Run(Next(n, steps[0]), steps[1..])
  }

  // ---- The invariant ----

  predicate Live(x: Side) { !x.pcb.state.Free? && !x.pcb.state.Closed? }

  /** Whether a side has chosen its initial sequence number, and whether it has taken its peer's. */
  predicate Started(x: Side) { x.last.sndNxt > 0 }
  predicate Synced(x: Side) { x.last.rcvNxt > 0 }

  function TxOf(x: Side, passive: bool): Tx { Tx(x.last.iss, x.stream, x.fin, passive) }

  function RxOf(x: Side): Rx {
    Rx(x.last.rcvNxt, x.last.rcvWnd, if x.last.rcvNxt == 0 then [] else x.got + Buffered(x.last))
  }

  function SwOf(x: Side): Sw { Sw(x.last.sndUna, x.last.sndWnd, x.last.wl1, x.last.wl2, x.heard, x.top) }

  /** A queued entry repeats what was sent. */
  predicate EntryGenuine(tx: Tx, e: Entry) {
    if e.flags.syn then
      e.flags == (if tx.passive then SYN_ACK else SYN) && e.seqno == tx.iss && e.text == []
    else if e.flags.fin then
      e.flags == FIN_ACK && e.text == [] && tx.fin && e.seqno == tx.Limit()
    else
      && e.flags == PSH_ACK && e.text != [] && |e.text| <= MAX_TEXT
      && tx.iss < e.seqno && e.seqno + |e.text| <= tx.Limit()
      && e.text == tx.stream[e.seqno - tx.iss - 1 .. e.seqno - tx.iss - 1 + |e.text|]
  }

  ghost predicate QueueGenuine(tx: Tx, q: seq<Entry>) { forall e :: e in q ==> EntryGenuine(tx, e) }

  /** One direction, from `s` to `r`, over the channels `c` (from `s`) and `d` (to `s`). */
  ghost predicate Half(s: Side, r: Side, c: seq<Segment>, d: seq<Segment>, passive: bool) {
    var tx := TxOf(s, passive);
    if Started(s) then
      && s.last.sndNxt == tx.Nxt()
      && DataLink(tx, RxOf(r), Live(r), c)
      && AckLink(tx, SwOf(s), RxOf(r), r.last.sndNxt, d)
      && TileLink(s.last.queue, s.last.sndUna, s.last.sndNxt, r.last.rcvNxt, c, d)
      && QueueGenuine(tx, s.last.queue)
    else
      && (forall m :: m in c ==> !Plain(m) && Genuine(tx, m))
      && (forall m :: m in d ==> !Carries(m))
      && s.last.queue == [] && s.last.rcvNxt == 0 && r.last.rcvNxt == 0 && s.heard == 0 && s.top == 0
      && s.last.sndWnd == 0 && s.last.wl1 == 0 && s.last.wl2 == 0
  }

  predicate TookFin(st: State) { st.CloseWait? || st.Closing? || st.TimeWait? || st.LastAck? }

  /** What the state of a side says about its own history. */
  ghost predicate SideOk(x: Side, passive: bool) {
    var p := x.last;
    && (x.pcb == p || x.pcb == ZeroPcb())
    && !x.overrun
    && p.iss < TWO31 && |x.stream| <= MAX_OCTETS
    && (p.state.Free? ==> p == ZeroPcb())
    && (p.state.Listen? ==> passive)
    && (p.state.SynSent? ==> !passive && p.rcvWnd == BUF_SIZE)
    && (Synced(x) ==> Started(x))
    && (passive && Started(x) ==> Synced(x))
    && (!Synced(x) ==> x.stream == [] && !x.fin && x.got == [])
    && (p.state.Free? || p.state.Listen? ==> !Started(x))
    && (p.state.SynSent? ==> Started(x) && !Synced(x) && p.sndUna == p.iss)
    && (!p.state.Free? && !p.state.Closed? && !p.state.Listen? && !p.state.SynSent? ==> Synced(x))
    && (p.state.SynReceived? ==> p.sndUna == p.iss)
    && (Synced(x) && !p.state.Closed? && !p.state.SynReceived? ==> p.sndUna > p.iss)
    && (!p.state.Closed? ==> (x.fin <==> SentFin(p.state)))
  }

  /**
   * What the state of a side says about its peer's FIN, and why an acknowledgement of something new always comes with a
   * window it takes: SND.WL1 passes RCV.NXT only while the peer's FIN waits for room.
   */
  ghost predicate Phase(x: Side, y: Side) {
    var p := x.last;
    Live(x) && Synced(x) ==>
      && (TookFin(p.state) <==> p.rcvNxt > y.last.iss + 1 + |y.stream|)
      && (x.heard <= p.sndUna || p.wl1 <= p.rcvNxt)
      && p.wl1 <= p.rcvNxt + 1
      && (p.wl1 > p.rcvNxt ==> p.rcvWnd >= 2 && y.fin && p.rcvNxt == y.last.iss + 1 + |y.stream|)
  }

  ghost predicate Linked(x: Side, y: Side, xy: seq<Segment>, yx: seq<Segment>, passive: bool) {
    && SideOk(x, passive) && SideOk(y, !passive)
    && Phase(x, y) && Phase(y, x)
    && Half(x, y, xy, yx, passive) && Half(y, x, yx, xy, !passive)
  }

  ghost predicate Inv(n: Net) { Linked(n.a, n.b, n.ab, n.ba, false) }
}
