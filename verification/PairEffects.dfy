/** What single steps achieve in the two-endpoint system, in terms of the streams and not of the PCB. */
module PairEffects {
  import opened Base
  import opened Time
  import opened Tcp
  import opened Link
  import opened TcpPair
  import opened PairProof
  import TcpRun

  /** The two sides of a network, seen from one of them. */
  function Me(n: Net, atA: bool): Side { if atA then n.a else n.b }
  function Peer(n: Net, atA: bool): Side { if atA then n.b else n.a }
  function Inbox(n: Net, atA: bool): seq<Segment> { if atA then n.ba else n.ab }
  function Outbox(n: Net, atA: bool): seq<Segment> { if atA then n.ab else n.ba }
  function At(atA: bool, act: Action): TcpPair.Step { if atA then AtA(act) else AtB(act) }

  lemma LinkedAt(steps: seq<TcpPair.Step>, atA: bool)
    ensures var n := TcpPair.Run(Init(), steps);
            Linked(Me(n, atA), Peer(n, atA), Outbox(n, atA), Inbox(n, atA), !atA)
  {
    InitIsLinked();
    RunKeeps(Init(), steps);
    LinkedBothWays(TcpPair.Run(Init(), steps));
  }

  lemma LinkedBothWays(n: Net)
    requires Inv(n)
    ensures Linked(n.a, n.b, n.ab, n.ba, false) && Linked(n.b, n.a, n.ba, n.ab, true)
  {
  }

  // ---- Conservation ----

  /** The text on the way to a receiver that has taken everything before `p`. */
  function OnTheWay(p: nat, c: seq<Segment>): seq<byte>
    decreases |c|
  {
    if c == [] then [] else NewText(p, c[0]) + OnTheWay(Advance(p, c[0]), c[1..])
  }

  function NewText(p: nat, m: Segment): seq<byte> {
    if Plain(m) && !m.flags.syn && !m.flags.fin && m.seqno == p then m.text else []
  }

  lemma NewTextIsNext(tx: Tx, p: nat, m: Segment)
    requires Genuine(tx, m) && tx.iss < p <= tx.Limit()
    ensures p <= Advance(p, m) <= tx.Limit()
    ensures NewText(p, m) == tx.stream[p - tx.iss - 1..Advance(p, m) - tx.iss - 1]
  {
  }

  lemma Joined(s: seq<byte>, i: nat, j: nat)
    requires i <= j <= |s|
    ensures s[i..j] + s[j..] == s[i..]
  {
  }

  lemma {:induction false} OnTheWayIsTheRest(tx: Tx, p: nat, c: seq<Segment>)
    requires AllGenuine(tx, c) && InOrder(p, c, tx.Limit(), tx.FinAt()) && tx.iss < p <= tx.Limit()
    ensures OnTheWay(p, c) == tx.stream[p - tx.iss - 1..]
    decreases |c|
  {
    if c == [] {
    } else {
      assert Genuine(tx, c[0]) && AllGenuine(tx, c[1..]);
      hide Genuine, AllGenuine, NewText, Advance, Fits;
      NewTextIsNext(tx, p, c[0]);
      var q := Advance(p, c[0]);
      OnTheWayIsTheRest(tx, q, c[1..]);
      Joined(tx.stream, p - tx.iss - 1, q - tx.iss - 1);
    }
  }

  /**
   * Nothing is lost and nothing is invented: in every reachable state what an endpoint was handed, what waits in its
   * buffer and what is on the way to it make up its peer's stream. So an empty channel means that all has arrived.
   */
  lemma StreamIsConserved(steps: seq<TcpPair.Step>, atA: bool)
    requires var x := Me(TcpPair.Run(Init(), steps), atA); Live(x) && Synced(x)
    ensures var n := TcpPair.Run(Init(), steps);
            var x, y := Me(n, atA), Peer(n, atA);
            && x.got + Buffered(x.last) + OnTheWay(y.last.iss + 1 + |x.got| + |Buffered(x.last)|, Inbox(n, atA))
               == y.stream
            && (Inbox(n, atA) == [] ==> x.got + Buffered(x.last) == y.stream)
  {
    var n := TcpPair.Run(Init(), steps);
    LinkedAt(steps, !atA);
    hide TcpPair.Run, Linked, Buffered;
    Conserves(Peer(n, atA), Me(n, atA), Inbox(n, atA), Outbox(n, atA), atA);
  }

  /** What the invariant of a direction says about the data alone. */
  lemma DataIsLinked(s: Side, r: Side, c: seq<Segment>, d: seq<Segment>, passive: bool)
    requires Linked(s, r, c, d, passive) && Live(r) && Synced(r)
    ensures DataLink(TxOf(s, passive), RxOf(r), true, c)
  {
    hide AckLink, TileLink, QueueGenuine, DataLink, Phase, Buffered;
  }

  lemma ReceiverStands(tx: Tx, rx: Rx, c: seq<Segment>)
    requires DataLink(tx, rx, true, c) && rx.nxt > 0
    ensures |rx.copied| <= |tx.stream| && rx.copied == tx.stream[..|rx.copied|]
    ensures AllGenuine(tx, c) && InOrder(tx.iss + 1 + |rx.copied|, c, tx.Limit(), tx.FinAt())
  {
    hide AllGenuine, InOrder;
  }

  lemma Conserves(s: Side, r: Side, c: seq<Segment>, d: seq<Segment>, passive: bool)
    requires Linked(s, r, c, d, passive) && Live(r) && Synced(r)
    ensures r.got + Buffered(r.last) + OnTheWay(s.last.iss + 1 + |r.got| + |Buffered(r.last)|, c) == s.stream
  {
    hide Linked, DataLink, InOrder, OnTheWay, AllGenuine, Buffered;
    DataIsLinked(s, r, c, d, passive);
    var tx, copied := TxOf(s, passive), r.got + Buffered(r.last);
    assert RxOf(r).copied == copied;
    ReceiverStands(tx, RxOf(r), c);
    OnTheWayIsTheRest(tx, tx.iss + 1 + |copied|, c);
    Completed(copied, s.stream);
  }

  lemma Completed(t: seq<byte>, s: seq<byte>)
    requires |t| <= |s| && t == s[..|t|]
    ensures t + s[|t|..] == s
  {
  }

  // ---- tcp_receive ----

  /**
   * In every reachable state, a tcp_receive at an endpoint with text buffered hands out exactly the next octets of the
   * peer's stream, as many as were asked for or are buffered.
   */
  lemma ReceiveHandsOutTheStream(steps: seq<TcpPair.Step>, atA: bool, size: nat)
    requires var x := Me(TcpPair.Run(Init(), steps), atA);
             (x.pcb.state.Established? || x.pcb.state.CloseWait?) && Buffered(x.pcb) != []
    ensures var n := TcpPair.Run(Init(), steps);
            var x, y := Me(n, atA), Peer(n, atA);
            var x' := Me(TcpPair.Next(n, At(atA, Receive(size))), atA);
            var k := Min(size, |Buffered(x.pcb)|);
            && |x.got| + k <= |y.stream|
            && x'.got == x.got + y.stream[|x.got|..|x.got| + k]
            && Buffered(x'.pcb) == Buffered(x.pcb)[k..]
  {
    var n := TcpPair.Run(Init(), steps);
    EveryRunIsReliable(steps);
    LinkedAt(steps, atA);
    hide Linked, Reliable, TcpPair.Run, Act;
    HandsOut(Me(n, atA), Peer(n, atA), Outbox(n, atA), Inbox(n, atA), !atA, size);
  }

  lemma HandsOut(x: Side, y: Side, xy: seq<Segment>, yx: seq<Segment>, passive: bool, size: nat)
    requires Linked(x, y, xy, yx, passive) && Reliable(y, x)
    requires (x.pcb.state.Established? || x.pcb.state.CloseWait?) && Buffered(x.pcb) != []
    ensures var x' := Act(Move(x, yx, xy), passive, Receive(size)).me;
            var k := Min(size, |Buffered(x.pcb)|);
            && |x.got| + k <= |y.stream|
            && x'.got == x.got + y.stream[|x.got|..|x.got| + k]
            && Buffered(x'.pcb) == Buffered(x.pcb)[k..]
  {
    hide Linked, Reliable, ReceiveCall, Buffered, Act;
    ReceiverFacts(x, y, xy, yx, passive);
    TcpRun.ReceiveMeans(x.pcb, size);
    ReceiveActs(x, xy, yx, passive, size);
    NextOctets(x.got, Buffered(x.pcb), y.stream, Min(size, |Buffered(x.pcb)|));
  }

  lemma ReceiveActs(x: Side, xy: seq<Segment>, yx: seq<Segment>, passive: bool, size: nat)
    requires ReceiveCall(x.pcb, size).Got?
    ensures var x', r := Act(Move(x, yx, xy), passive, Receive(size)).me, ReceiveCall(x.pcb, size);
            x'.pcb == r.pcb && x'.got == x.got + r.data
  {
    hide ReceiveCall;
  }

  lemma ReceiverFacts(x: Side, y: Side, xy: seq<Segment>, yx: seq<Segment>, passive: bool)
    requires Linked(x, y, xy, yx, passive) && (x.pcb.state.Established? || x.pcb.state.CloseWait?)
    requires Reliable(y, x)
    ensures x.pcb == x.last && x.got + Buffered(x.pcb) <= y.stream
  {
    hide Half, Phase;
  }

  lemma NextOctets(got: seq<byte>, waiting: seq<byte>, stream: seq<byte>, k: nat)
    requires got + waiting <= stream && k <= |waiting|
    ensures |got| + k <= |stream| && waiting[..k] == stream[|got|..|got| + k]
  {
    assert stream[..|got + waiting|] == got + waiting;
  }

  // ---- LAST-ACK ----

  /** No acknowledgement in flight is ahead of what its sender has taken. */
  lemma AckIsTaken(x: Side, y: Side, xy: seq<Segment>, yx: seq<Segment>, passive: bool)
    requires Linked(x, y, xy, yx, passive) && Started(x) && yx != [] && Carries(yx[0])
    ensures yx[0].ack <= y.last.rcvNxt
  {
    var tx, sw := TxOf(x, passive), SwOf(x);
    AckHear(tx, sw, RxOf(y), y.last.sndNxt, yx);
    var sw' := Hear(sw, yx[0]);
    hide DataLink, TileLink, QueueGenuine, SideOk, Phase;
    ChainMonotone(sw'.heard, SendEdge(tx, sw'), sw'.top, yx[1..], RxOf(y).nxt, RxOf(y).Edge(), y.last.sndNxt);
  }

  /** A delivery that ends an endpoint in LAST-ACK finds that the peer has taken its whole stream and its FIN. */
  lemma LastAckEndsWhenTaken(steps: seq<TcpPair.Step>, atA: bool, act: Action)
    requires act.Deliver?
    requires var n := TcpPair.Run(Init(), steps);
             && Me(n, atA).pcb.state.LastAck?
             && !Me(TcpPair.Next(n, At(atA, act)), atA).pcb.state.LastAck?
    ensures var n := TcpPair.Run(Init(), steps);
            && Peer(n, atA).last.rcvNxt > Me(n, atA).last.iss + 1 + |Me(n, atA).stream|
            && Received(Peer(n, atA)) == Me(n, atA).stream
  {
    var n := TcpPair.Run(Init(), steps);
    var x, y := Me(n, atA), Peer(n, atA);
    LinkedAt(steps, atA);
    hide TcpPair.Run, Linked, Act;
    LastAckDelivery(x, y, Outbox(n, atA), Inbox(n, atA), !atA, act);
    TakenIsAll(x, y, Outbox(n, atA), Inbox(n, atA), !atA);
  }

  lemma LastAckDelivery(x: Side, y: Side, xy: seq<Segment>, yx: seq<Segment>, passive: bool, act: Action)
    requires Linked(x, y, xy, yx, passive) && x.pcb.state.LastAck? && act.Deliver?
    requires !Act(Move(x, yx, xy), passive, act).me.pcb.state.LastAck?
    ensures y.last.rcvNxt > x.last.iss + 1 + |x.stream|
  {
    hide Half, SideOk, Phase, Arrives;
    assert yx != [];
    var m := yx[0];
    assert Plain(m) by {
      if !Plain(m) { NoiseKeepsPcb(x, y, xy, yx, passive, act); }
    }
    LastAckSent(x, y, xy, yx, passive);
    HeadFacts(x, y, xy, yx, passive);
    LastAckEnds(x.pcb, m, act);
    AckIsTaken(x, y, xy, yx, passive);
  }

  lemma NoiseKeepsPcb(x: Side, y: Side, xy: seq<Segment>, yx: seq<Segment>, passive: bool, act: Action)
    requires Linked(x, y, xy, yx, passive) && x.pcb.state.LastAck? && act.Deliver? && yx != [] && !Plain(yx[0])
    ensures Act(Move(x, yx, xy), passive, act).me.pcb == x.pcb
  {
    assert Reset(yx[0]) by { assert yx[0] in yx; }
    ResetIgnored(x.pcb, yx[0], act);
  }

  /** A processed segment ends LAST-ACK only if it acknowledges SND.NXT. */
  lemma LastAckEnds(p: Pcb, m: Segment, act: Action)
    requires p.state.LastAck? && act.Deliver?
    requires var r := Arrives(p, m, act.local, act.foreign, act.iss, act.now, act.destroyed);
             r.Done? && !r.pcb.state.LastAck?
    ensures m.flags.ack && m.ack == p.sndNxt
  {
    hide TextPhase, FinPhase;
  }

  lemma LastAckSent(x: Side, y: Side, xy: seq<Segment>, yx: seq<Segment>, passive: bool)
    requires Linked(x, y, xy, yx, passive) && x.pcb.state.LastAck?
    ensures x.pcb == x.last && x.fin && Started(x) && Synced(x) && x.last.sndNxt == x.last.iss + 1 + |x.stream| + 1
  {
    hide DataLink, AckLink, TileLink, QueueGenuine, Phase;
  }

  /** An endpoint that has taken the FIN has taken the stream. */
  lemma TakenIsAll(s: Side, r: Side, c: seq<Segment>, d: seq<Segment>, passive: bool)
    requires Linked(s, r, c, d, passive) && r.last.rcvNxt > s.last.iss + 1 + |s.stream|
    ensures Received(r) == s.stream
  {
    hide AckLink, TileLink, QueueGenuine;
    assert s.stream[..|s.stream|] == s.stream;
  }
}
