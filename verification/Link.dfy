/**
 One direction of a connection: a sender's sequence space, the receiver's position in it, the segments in flight,
 and the acknowledgements in flight the other way. Nothing here depends on how a PCB stores these; `TcpPair` shows
 that the PCBs of two endpoints keep both directions linked in this sense.

 Channels are first-in first-out. The sender may repeat queued segments; nothing is lost.
 */
module Link {
  import opened Base
  import opened Tcp
  import Retransmit

  const MAX_TEXT: int := 65495  // the largest segment text an MTU of 65535 allows

  /** What a sender has put into its sequence space: a SYN at `iss`, then `stream`, then perhaps a FIN. */
  datatype Tx = Tx(iss: nat, stream: seq<byte>, fin: bool, passive: bool) {
    function Limit(): nat { iss + 1 + |stream| }
    function Nxt(): nat { Limit() + (if fin then 1 else 0) }
    function FinAt(): int { if fin then Limit() else -1 }
  }

  /** A receiver: RCV.NXT (0 before the peer's SYN), RCV.WND, and all octets copied so far. */
  datatype Rx = Rx(nxt: nat, wnd: nat, copied: seq<byte>) {
    function Edge(): nat { nxt + wnd }
  }

  /** The send window variables, with the last acknowledgement and the highest sequence number that arrived. */
  datatype Sw = Sw(una: nat, wnd: nat, wl1: nat, wl2: nat, heard: nat, top: nat)

  predicate Plain(m: Segment) { !m.flags.rst }

  /** Segments whose acknowledgement and window fields are read. */
  predicate Carries(m: Segment) { !m.flags.rst && m.flags.ack }

  /** Sequence space taken by text and SYN. */
  function Span(m: Segment): nat { |m.text| + (if m.flags.syn then 1 else 0) }

  function FullSpan(m: Segment): nat { Span(m) + (if m.flags.fin then 1 else 0) }

  /** A segment a sender with sequence space `tx` may have emitted. Resets carry nothing. */
  predicate Genuine(tx: Tx, m: Segment) {
    if m.flags.rst then
      m.text == [] && !m.flags.syn && !m.flags.fin && (m.flags.ack ==> m.seqno == 0)
    else if m.flags.syn then
      m.seqno == tx.iss && m.text == [] && m.flags == (if tx.passive then SYN_ACK else SYN)
    else
      && m.flags.ack && tx.iss < m.seqno
      && (m.flags.fin ==> m.text == [])
      && |m.text| <= MAX_TEXT
      && (m.text != [] ==>
            && m.seqno + |m.text| <= tx.Limit()
            && m.text == tx.stream[m.seqno - tx.iss - 1 .. m.seqno - tx.iss - 1 + |m.text|])
  }

  // ---- Order ----

  /** Whether `m` can arrive when text and SYN have arrived up to `p`; `f` is the place of the FIN, or -1. */
  predicate Fits(p: nat, f: int, m: Segment) {
    m.flags.rst ||
    if m.flags.fin then f == m.seqno == p
    else if Span(m) > 0 then m.seqno + Span(m) <= p || m.seqno == p
    else m.seqno == p || (f == p && m.seqno == f + 1)
  }

  function Advance(p: nat, m: Segment): nat {
    if Plain(m) && !m.flags.fin && Span(m) > 0 && m.seqno == p then p + Span(m) else p
  }

  /** The channel continues the sequence space from `p` to `q` without a gap; it may repeat what came before. */
  predicate InOrder(p: nat, c: seq<Segment>, q: nat, f: int)
    decreases |c|
  {
    if c == [] then p == q else Fits(p, f, c[0]) && InOrder(Advance(p, c[0]), c[1..], q, f)
  }

  lemma {:induction false} InOrderAppend(p: nat, c: seq<Segment>, q: nat, f: int, m: Segment)
    requires InOrder(p, c, q, f) && Fits(q, f, m)
    ensures InOrder(p, c + [m], Advance(q, m), f)
    decreases |c|
  {
    if c == [] {
      assert (c + [m])[1..] == [];
    } else {
      InOrderAppend(Advance(p, c[0]), c[1..], q, f, m);
      assert (c + [m])[1..] == c[1..] + [m];
    }
  }

  /** Sending the FIN does not disturb what is in flight. */
  lemma {:induction false} InOrderFin(p: nat, c: seq<Segment>, q: nat)
    requires InOrder(p, c, q, -1)
    ensures InOrder(p, c, q, q)
    decreases |c|
  {
    if c == [] {
    } else {
      InOrderFin(Advance(p, c[0]), c[1..], q);
    }
  }

  lemma {:induction false} InOrderAllOld(c: seq<Segment>, p: nat)
    requires forall m :: m in c && Plain(m) ==> !m.flags.fin && Span(m) > 0 && m.seqno + Span(m) <= p
    ensures InOrder(p, c, p, -1)
  {
    if c == [] {
    } else {
      assert c[0] in c;
      InOrderAllOld(c[1..], p);
    }
  }

  /** The receiver's place in the sender's text and SYN. */
  function Pos(tx: Tx, rx: Rx): nat { if rx.nxt == 0 then tx.iss else Min(rx.nxt, tx.Limit()) }

  ghost predicate AllGenuine(tx: Tx, c: seq<Segment>) { forall m :: m in c ==> Genuine(tx, m) }

  ghost predicate OnlySyns(c: seq<Segment>) { forall m :: m in c && Plain(m) ==> m.flags.syn }

  /**
   * The receiver has a prefix of the stream, there is room for all the text ever sent, and the channel carries on where
   * the receiver is. A receiver that has closed takes nothing more.
   */
  ghost predicate DataLink(tx: Tx, rx: Rx, live: bool, c: seq<Segment>) {
    && AllGenuine(tx, c)
    && (rx.nxt == 0 ==>
          && tx.stream == [] && !tx.fin && rx.copied == []
          && (!tx.passive ==> OnlySyns(c)))
    && (rx.nxt > 0 ==>
          && tx.iss < rx.nxt <= tx.Nxt()
          && tx.Limit() <= rx.Edge()
          && rx.copied == tx.stream[..Pos(tx, rx) - tx.iss - 1])
    && (live && (rx.nxt > 0 || tx.passive) ==> InOrder(Pos(tx, rx), c, tx.Limit(), tx.FinAt()))
  }

  lemma DataPop(tx: Tx, rx: Rx, live: bool, c: seq<Segment>)
    requires DataLink(tx, rx, live, c) && c != []
    requires live && Plain(c[0]) ==> Advance(Pos(tx, rx), c[0]) == Pos(tx, rx) && rx.nxt > 0
    ensures DataLink(tx, rx, live, c[1..])
  {
  }

  lemma DataText(tx: Tx, rx: Rx, c: seq<Segment>)
    requires DataLink(tx, rx, true, c) && c != [] && rx.nxt > 0
    requires Plain(c[0]) && c[0].text != [] && c[0].seqno == rx.nxt
    ensures |c[0].text| <= rx.wnd && !c[0].flags.fin && !c[0].flags.syn
    ensures DataLink(tx, Rx(rx.nxt + |c[0].text|, rx.wnd - |c[0].text|, rx.copied + c[0].text), true, c[1..])
  {
    var m := c[0];
    assert Genuine(tx, m);
    assert Pos(tx, rx) == rx.nxt;
    var k := rx.nxt - tx.iss - 1;
    assert tx.stream[..k] + tx.stream[k..k + |m.text|] == tx.stream[..k + |m.text|];
  }

  lemma DataFin(tx: Tx, rx: Rx, c: seq<Segment>)
    requires DataLink(tx, rx, true, c) && c != [] && rx.nxt > 0
    requires Plain(c[0]) && c[0].flags.fin && c[0].seqno == rx.nxt
    ensures tx.fin && rx.nxt == tx.Limit()
    ensures DataLink(tx, rx.(nxt := rx.nxt + 1), true, c[1..])
  {
  }

  /** The receiver takes the SYN. */
  lemma DataSyn(tx: Tx, rx: Rx, c: seq<Segment>, wnd: nat)
    requires DataLink(tx, rx, true, c) && c != [] && rx.nxt == 0
    requires Plain(c[0]) && c[0].flags.syn
    ensures DataLink(tx, Rx(tx.iss + 1, wnd, []), true, c[1..])
  {
    assert Genuine(tx, c[0]);
    if !tx.passive {
      forall m | m in c[1..] && Plain(m) ensures !m.flags.fin && Span(m) > 0 && m.seqno + Span(m) <= tx.iss + 1 {
        assert m in c && Genuine(tx, m);
      }
      InOrderAllOld(c[1..], tx.iss + 1);
    }
  }

  /** Before the receiver has the SYN, nothing but it can arrive from a passive sender. */
  lemma FirstIsSyn(tx: Tx, rx: Rx, c: seq<Segment>)
    requires DataLink(tx, rx, true, c) && c != [] && rx.nxt == 0 && Plain(c[0])
    ensures c[0].flags.syn
  {
    assert Genuine(tx, c[0]);
  }

  /** A reset, a bare acknowledgement at the end of the sequence space, or a repetition. */
  predicate Repeats(tx: Tx, m: Segment) {
    && Genuine(tx, m)
    && (m.flags.rst ||
        if FullSpan(m) == 0 then m.seqno == tx.Nxt()
        else if m.flags.fin then m.seqno == tx.FinAt()
        else true)
  }

  lemma DataRepeat(tx: Tx, rx: Rx, live: bool, c: seq<Segment>, m: Segment)
    requires DataLink(tx, rx, live, c) && Repeats(tx, m)
    requires rx.nxt == 0 && !tx.passive && Plain(m) ==> m.flags.syn
    ensures DataLink(tx, rx, live, c + [m])
  {
    if live && (rx.nxt > 0 || tx.passive) {
      InOrderAppend(Pos(tx, rx), c, tx.Limit(), tx.FinAt(), m);
    }
  }

  lemma GenuineGrows(tx: Tx, tx': Tx, m: Segment)
    requires Genuine(tx, m) && tx'.iss == tx.iss && tx'.passive == tx.passive && tx.stream <= tx'.stream
    ensures Genuine(tx', m)
  {
  }

  lemma AppendGenuine(tx: Tx, c: seq<Segment>, m: Segment)
    requires AllGenuine(tx, c) && !tx.fin
    requires m.flags == PSH_ACK && m.text != [] && |m.text| <= MAX_TEXT && m.seqno == tx.Limit()
    ensures AllGenuine(tx.(stream := tx.stream + m.text), c + [m])
  {
    var tx' := tx.(stream := tx.stream + m.text);
    forall x | x in c + [m] ensures Genuine(tx', x) {
      if x in c { GenuineGrows(tx, tx', x); }
    }
  }

  lemma DataSend(tx: Tx, rx: Rx, live: bool, c: seq<Segment>, m: Segment)
    requires DataLink(tx, rx, live, c) && rx.nxt > 0 && !tx.fin
    requires m.flags == PSH_ACK && m.text != [] && |m.text| <= MAX_TEXT && m.seqno == tx.Limit()
    requires tx.Limit() + |m.text| <= rx.Edge()
    ensures DataLink(tx.(stream := tx.stream + m.text), rx, live, c + [m])
  {
    AppendGenuine(tx, c, m);
    hide AllGenuine, InOrder;
    var tx' := tx.(stream := tx.stream + m.text);
    assert Pos(tx', rx) == Pos(tx, rx);
    assert tx'.stream[..Pos(tx, rx) - tx.iss - 1] == tx.stream[..Pos(tx, rx) - tx.iss - 1];
    if live { InOrderAppend(Pos(tx, rx), c, tx.Limit(), -1, m); }
  }

  lemma DataSendFin(tx: Tx, rx: Rx, live: bool, c: seq<Segment>, m: Segment)
    requires DataLink(tx, rx, live, c) && rx.nxt > 0 && !tx.fin
    requires m.flags == FIN_ACK && m.text == [] && m.seqno == tx.Limit()
    ensures DataLink(tx.(fin := true), rx, live, c + [m])
  {
    var tx' := tx.(fin := true);
    if live {
      InOrderFin(Pos(tx, rx), c, tx.Limit());
      InOrderAppend(Pos(tx, rx), c, tx.Limit(), tx.Limit(), m);
    }
  }

  /** A larger window, or a receiver that goes away. */
  lemma DataWeaken(tx: Tx, rx: Rx, live: bool, c: seq<Segment>, rx': Rx, live': bool)
    requires DataLink(tx, rx, live, c)
    requires rx'.nxt == rx.nxt && rx'.copied == rx.copied && rx'.wnd >= rx.wnd && (live' ==> live)
    ensures DataLink(tx, rx', live', c)
  {
  }

  // ---- Acknowledgements and windows ----

  /**
   * Along the channel, acknowledgements (from `a` to `a'`) and right window edges (from `e`, at most `e'`) never
   * decrease, and whatever acknowledges something new has the highest sequence number so far (from `t`).
   */
  predicate Chain(a: nat, e: nat, t: nat, d: seq<Segment>, a': nat, e': nat, t': nat)
    decreases |d|
  {
    if d == [] then a == a' && e <= e' && t <= t'
    else if !Carries(d[0]) then Chain(a, e, t, d[1..], a', e', t')
    else
      && a <= d[0].ack && e <= d[0].ack + d[0].wnd && (a < d[0].ack ==> t <= d[0].seqno)
      && Chain(d[0].ack, d[0].ack + d[0].wnd, Max(t, d[0].seqno), d[1..], a', e', t')
  }

  lemma {:induction false} ChainMonotone(a: nat, e: nat, t: nat, d: seq<Segment>, a': nat, e': nat, t': nat)
    requires Chain(a, e, t, d, a', e', t')
    ensures a <= a' && e <= e' && t <= t'
    decreases |d|
  {
    if d == [] {
    } else {
      if Carries(d[0]) {
        ChainMonotone(d[0].ack, d[0].ack + d[0].wnd, Max(t, d[0].seqno), d[1..], a', e', t');
      } else {
        ChainMonotone(a, e, t, d[1..], a', e', t');
      }
    }
  }

  lemma {:induction false} ChainWeaken(a: nat, e: nat, t: nat, d: seq<Segment>, a': nat, e': nat, t': nat,
                                       e1: nat, e2: nat, t2: nat)
    requires Chain(a, e, t, d, a', e', t') && e1 <= e && e' <= e2 && t' <= t2
    ensures Chain(a, e1, t, d, a', e2, t2)
    decreases |d|
  {
    if d == [] {
    } else {
      if Carries(d[0]) {
        ChainWeaken(d[0].ack, d[0].ack + d[0].wnd, Max(t, d[0].seqno), d[1..], a', e', t',
                    d[0].ack + d[0].wnd, e2, t2);
      } else {
        ChainWeaken(a, e, t, d[1..], a', e', t', e1, e2, t2);
      }
    }
  }

  lemma {:induction false} ChainAppend(a: nat, e: nat, t: nat, d: seq<Segment>, a': nat, e': nat, t': nat,
                                       m: Segment, e2: nat, t2: nat)
    requires Chain(a, e, t, d, a', e', t') && Carries(m)
    requires a' <= m.ack && e' <= m.ack + m.wnd <= e2 && (a' < m.ack ==> t' <= m.seqno) && Max(t', m.seqno) <= t2
    ensures Chain(a, e, t, d + [m], m.ack, e2, t2)
    decreases |d|
  {
    if d == [] {
      assert d + [m] == [m] && [m][1..] == [];
    } else {
      assert (d + [m])[1..] == d[1..] + [m] && (d + [m])[0] == d[0];
      if Carries(d[0]) {
        ChainAppend(d[0].ack, d[0].ack + d[0].wnd, Max(t, d[0].seqno), d[1..], a', e', t', m, e2, t2);
      } else {
        ChainAppend(a, e, t, d[1..], a', e', t', m, e2, t2);
      }
    }
  }

  lemma {:induction false} ChainSkip(a: nat, e: nat, t: nat, d: seq<Segment>, a': nat, e': nat, t': nat, m: Segment)
    requires Chain(a, e, t, d, a', e', t') && !Carries(m)
    ensures Chain(a, e, t, d + [m], a', e', t')
    decreases |d|
  {
    if d == [] {
      assert d + [m] == [m] && [m][1..] == [];
    } else {
      assert (d + [m])[1..] == d[1..] + [m] && (d + [m])[0] == d[0];
      if Carries(d[0]) {
        ChainSkip(d[0].ack, d[0].ack + d[0].wnd, Max(t, d[0].seqno), d[1..], a', e', t', m);
      } else {
        ChainSkip(a, e, t, d[1..], a', e', t', m);
      }
    }
  }

  /** The right edge the sender may use; none before its SYN is acknowledged. */
  function SendEdge(tx: Tx, sw: Sw): nat { if sw.una > tx.iss then sw.una + sw.wnd else 0 }

  ghost predicate AcksNothingUnsent(tx: Tx, d: seq<Segment>) {
    forall m :: m in d && Carries(m) ==> tx.iss < m.ack <= tx.Nxt()
  }

  /**
   * The sender's window never passes the receiver's, and everything sent fits it. `top` bounds the sequence numbers the
   * receiver has used.
   */
  ghost predicate AckLink(tx: Tx, sw: Sw, rx: Rx, top: nat, d: seq<Segment>) {
    && Chain(sw.heard, SendEdge(tx, sw), sw.top, d, rx.nxt, rx.Edge(), top)
    && AcksNothingUnsent(tx, d)
    && tx.iss <= sw.una <= tx.Nxt()
    && (sw.una == tx.iss ==> tx.stream == [] && !tx.fin && sw.wl1 == 0 && sw.wl2 == 0)
    && (sw.una > tx.iss ==> sw.una <= sw.heard && tx.Limit() <= sw.una + sw.wnd)
    && sw.wl1 <= sw.top && sw.wl2 <= sw.una
  }

  function Hear(sw: Sw, m: Segment): Sw {
    if Carries(m) then sw.(heard := m.ack, top := Max(sw.top, m.seqno)) else sw
  }

  function TakeWindow(sw: Sw, m: Segment): Sw { sw.(una := m.ack, wnd := m.wnd, wl1 := m.seqno, wl2 := m.ack) }

  /** A segment is heard but its acknowledgement not used. */
  lemma AckHear(tx: Tx, sw: Sw, rx: Rx, top: nat, d: seq<Segment>)
    requires AckLink(tx, sw, rx, top, d) && d != []
    ensures AckLink(tx, Hear(sw, d[0]), rx, top, d[1..])
  {
    var m := d[0];
    if Carries(m) {
      ChainWeaken(m.ack, m.ack + m.wnd, Max(sw.top, m.seqno), d[1..], rx.nxt, rx.Edge(), top,
                  SendEdge(tx, sw), rx.Edge(), top);
    }
  }

  /** A segment acknowledges something new and its window is taken. */
  lemma AckTake(tx: Tx, sw: Sw, rx: Rx, top: nat, d: seq<Segment>)
    requires AckLink(tx, sw, rx, top, d) && d != [] && Carries(d[0]) && sw.una < d[0].ack
    ensures AckLink(tx, TakeWindow(Hear(sw, d[0]), d[0]), rx, top, d[1..])
  {
  }

  /** The receiver emits a segment that carries its present position and window. */
  lemma AckEmit(tx: Tx, sw: Sw, rx: Rx, top: nat, d: seq<Segment>, rx': Rx, top': nat, m: Segment)
    requires AckLink(tx, sw, rx, top, d) && Carries(m)
    requires m.ack == rx'.nxt && m.wnd == rx'.wnd && rx.nxt <= rx'.nxt && rx.Edge() <= rx'.Edge()
    requires tx.iss < rx'.nxt <= tx.Nxt()
    requires top <= top' && m.seqno <= top' && (rx.nxt < rx'.nxt ==> top <= m.seqno)
    ensures AckLink(tx, sw, rx', top', d + [m])
  {
    ChainAppend(sw.heard, SendEdge(tx, sw), sw.top, d, rx.nxt, rx.Edge(), top, m, rx'.Edge(), top');
  }

  lemma AckSkip(tx: Tx, sw: Sw, rx: Rx, top: nat, d: seq<Segment>, m: Segment, top': nat)
    requires AckLink(tx, sw, rx, top, d) && !Carries(m) && top <= top'
    ensures AckLink(tx, sw, rx, top', d + [m])
  {
    ChainSkip(sw.heard, SendEdge(tx, sw), sw.top, d, rx.nxt, rx.Edge(), top, m);
    ChainWeaken(sw.heard, SendEdge(tx, sw), sw.top, d + [m], rx.nxt, rx.Edge(), top, SendEdge(tx, sw), rx.Edge(), top');
  }

  lemma AckWiden(tx: Tx, sw: Sw, rx: Rx, top: nat, d: seq<Segment>, rx': Rx)
    requires AckLink(tx, sw, rx, top, d) && rx'.nxt == rx.nxt && rx'.wnd >= rx.wnd
    ensures AckLink(tx, sw, rx', top, d)
  {
    ChainWeaken(sw.heard, SendEdge(tx, sw), sw.top, d, rx.nxt, rx.Edge(), top, SendEdge(tx, sw), rx'.Edge(), top);
  }

  /** The sender sends more, inside its window, or its FIN. */
  lemma AckGrow(tx: Tx, sw: Sw, rx: Rx, top: nat, d: seq<Segment>, tx': Tx)
    requires AckLink(tx, sw, rx, top, d) && sw.una > tx.iss
    requires tx'.iss == tx.iss && tx'.Nxt() >= tx.Nxt() && tx'.Limit() <= sw.una + sw.wnd
    ensures AckLink(tx', sw, rx, top, d)
  {
  }

  /** Flow control: the sender's right edge is within the receiver's. */
  lemma WindowsAgree(tx: Tx, sw: Sw, rx: Rx, top: nat, d: seq<Segment>)
    requires AckLink(tx, sw, rx, top, d)
    ensures sw.una > tx.iss ==> sw.una <= rx.nxt && sw.una + sw.wnd <= rx.Edge()
    ensures sw.heard <= rx.nxt
  {
    ChainMonotone(sw.heard, SendEdge(tx, sw), sw.top, d, rx.nxt, rx.Edge(), top);
  }

  // ---- Tiles ----

  function EntrySpan(e: Entry): nat {
    |e.text| + (if e.flags.syn then 1 else 0) + (if e.flags.fin then 1 else 0)
  }

  /** The queue covers [una, nxt) exactly, each entry starting where the one before it ends. */
  predicate Tiles(q: seq<Entry>, una: nat, nxt: nat) {
    if q == [] then una == nxt
    else q[0].seqno == una && EntrySpan(q[0]) > 0 && Tiles(q[1..], una + EntrySpan(q[0]), nxt)
  }

  /** `x` is where an entry starts, or the end of the queue. */
  ghost predicate Seam(q: seq<Entry>, nxt: nat, x: nat) {
    x == nxt || exists e :: e in q && e.seqno == x
  }

  lemma {:induction false} TilesBounds(q: seq<Entry>, una: nat, nxt: nat)
    requires Tiles(q, una, nxt)
    ensures una <= nxt
    ensures forall e :: e in q ==> una <= e.seqno && e.seqno + EntrySpan(e) <= nxt && EntrySpan(e) > 0
    ensures forall e :: e in q ==> Seam(q, nxt, e.seqno + EntrySpan(e))
  {
    if q == [] {
    } else {
      TilesBounds(q[1..], una + EntrySpan(q[0]), nxt);
      forall e | e in q ensures una <= e.seqno && e.seqno + EntrySpan(e) <= nxt && EntrySpan(e) > 0
        ensures Seam(q, nxt, e.seqno + EntrySpan(e))
      {
        if e == q[0] {
          if |q| > 1 { assert q[1] in q && q[1].seqno == q[1..][0].seqno; }
        } else {
          assert e in q[1..];
          assert Seam(q[1..], nxt, e.seqno + EntrySpan(e));
        }
      }
    }
  }

  lemma {:induction false} TilesAppend(q: seq<Entry>, una: nat, nxt: nat, e: Entry)
    requires Tiles(q, una, nxt) && e.seqno == nxt && EntrySpan(e) > 0
    ensures Tiles(q + [e], una, nxt + EntrySpan(e))
  {
    if q == [] {
      assert (q + [e])[1..] == [];
    } else {
      TilesAppend(q[1..], una + EntrySpan(q[0]), nxt, e);
      assert (q + [e])[1..] == q[1..] + [e];
    }
  }

  /** A seam other than the start of the first entry is a seam of the rest. */
  lemma SeamOfRest(q: seq<Entry>, una: nat, nxt: nat, x: nat)
    requires Tiles(q, una, nxt) && q != [] && x > una && Seam(q, nxt, x)
    ensures Seam(q[1..], nxt, x) && x >= una + EntrySpan(q[0])
  {
    TilesBounds(q[1..], una + EntrySpan(q[0]), nxt);
    if x != nxt {
      var e :| e in q && e.seqno == x;
      assert e in q[1..];
    }
  }

  /** An acknowledgement that falls on a seam leaves the rest of the tiling. */
  lemma {:induction false} TilesCleanup(q: seq<Entry>, una: nat, nxt: nat, x: u32)
    requires Tiles(q, una, nxt) && una <= x && Seam(q, nxt, x)
    ensures Tiles(Cleanup(q, x), x, nxt)
  {
    if q != [] && q[0].seqno < x {
      SeamOfRest(q, una, nxt, x);
      TilesCleanup(q[1..], una + EntrySpan(q[0]), nxt, x);
    } else if q == [] {
      TilesBounds(q, una, nxt);
    }
  }

  /**
   * An acknowledgement leaves an exact tiling exactly when it falls on a seam: cleanup drops an entry as soon as its
   * first octet is acknowledged.
   */
  lemma TilesCleanupIff(q: seq<Entry>, una: nat, nxt: nat, x: u32)
    requires Tiles(q, una, nxt) && una <= x
    ensures Tiles(Cleanup(q, x), x, nxt) <==> Seam(q, nxt, x)
  {
    if Seam(q, nxt, x) { TilesCleanup(q, una, nxt, x); }
    var k := Retransmit.CleanupSuffix(q, x);
    if Cleanup(q, x) != [] { assert Cleanup(q, x)[0] == q[k]; }
  }

  /** An acknowledgement of the first of two octets sent in one segment drops both. */
  lemma PartialAckDropsAll(e: Entry, x: u32)
    requires EntrySpan(e) == 2 && x == e.seqno + 1
    ensures Tiles([e], e.seqno, e.seqno + 2) && Cleanup([e], x) == [] && !Tiles([], x, e.seqno + 2)
  {
    assert [e][1..] == [];
    assert Cleanup([e][1..], x) == [];
  }

  lemma {:induction false} SeamCleanup(q: seq<Entry>, una: nat, nxt: nat, x: u32, y: nat)
    requires Tiles(q, una, nxt) && una <= x <= y && Seam(q, nxt, x) && Seam(q, nxt, y)
    ensures Seam(Cleanup(q, x), nxt, y)
  {
    if q == [] || q[0].seqno >= x {
    } else {
      SeamOfRest(q, una, nxt, x);
      SeamOfRest(q, una, nxt, y);
      SeamCleanup(q[1..], una + EntrySpan(q[0]), nxt, x, y);
    }
  }

  /** Everything unacknowledged is queued, and acknowledgements under way fall between queued segments. */
  ghost predicate TileLink(q: seq<Entry>, una: nat, nxt: nat, rcvNxt: nat, c: seq<Segment>, d: seq<Segment>) {
    && Tiles(q, una, nxt)
    && (rcvNxt > 0 ==> una <= rcvNxt && Seam(q, nxt, rcvNxt))
    && (forall m :: m in d && Carries(m) && m.ack >= una ==> Seam(q, nxt, m.ack))
    && (forall m :: m in c && Plain(m) && FullSpan(m) > 0 && m.seqno >= una ==>
          Seam(q, nxt, m.seqno + FullSpan(m)))
  }

  lemma TilePop(q: seq<Entry>, una: nat, nxt: nat, rcvNxt: nat, c: seq<Segment>, d: seq<Segment>, c': seq<Segment>,
                d': seq<Segment>)
    requires TileLink(q, una, nxt, rcvNxt, c, d)
    requires forall m :: m in c' ==> m in c
    requires forall m :: m in d' ==> m in d
    ensures TileLink(q, una, nxt, rcvNxt, c', d')
  {
  }

  lemma TileAck(q: seq<Entry>, una: nat, nxt: nat, rcvNxt: nat, c: seq<Segment>, d: seq<Segment>, x: u32)
    requires TileLink(q, una, nxt, rcvNxt, c, d) && una < x <= rcvNxt
    requires exists m :: m in d && Carries(m) && m.ack == x
    ensures TileLink(Cleanup(q, x), x, nxt, rcvNxt, c, d)
  {
    TilesCleanup(q, una, nxt, x);
    forall y: nat | y >= x && Seam(q, nxt, y) ensures Seam(Cleanup(q, x), nxt, y) {
      SeamCleanup(q, una, nxt, x, y);
    }
  }

  lemma TileSend(q: seq<Entry>, una: nat, nxt: nat, rcvNxt: nat, c: seq<Segment>, d: seq<Segment>, e: Entry,
                 m: Segment)
    requires TileLink(q, una, nxt, rcvNxt, c, d) && e.seqno == nxt && EntrySpan(e) > 0
    requires m.seqno == e.seqno && FullSpan(m) == EntrySpan(e)
    ensures TileLink(q + [e], una, nxt + EntrySpan(e), rcvNxt, c + [m], d)
  {
    TilesAppend(q, una, nxt, e);
    var nxt' := nxt + EntrySpan(e);
    forall x: nat | Seam(q, nxt, x) ensures Seam(q + [e], nxt', x) {
      if x == nxt { assert e in q + [e]; } else {
        var f :| f in q && f.seqno == x;
        assert f in q + [e];
      }
    }
  }

  /** A repetition of a queued entry. */
  lemma TileRepeat(q: seq<Entry>, una: nat, nxt: nat, rcvNxt: nat, c: seq<Segment>, d: seq<Segment>, m: Segment)
    requires TileLink(q, una, nxt, rcvNxt, c, d)
    requires Plain(m) && FullSpan(m) > 0 ==>
               exists e :: e in q && e.seqno == m.seqno && EntrySpan(e) == FullSpan(m)
    ensures TileLink(q, una, nxt, rcvNxt, c + [m], d)
  {
    TilesBounds(q, una, nxt);
  }

  /** The receiver takes a segment in order and acknowledges it. */
  lemma TileAdvance(q: seq<Entry>, una: nat, nxt: nat, rcvNxt: nat, c: seq<Segment>, d: seq<Segment>, rcvNxt': nat,
                    m: Segment)
    requires TileLink(q, una, nxt, rcvNxt, c, d) && Carries(m) && m.ack == rcvNxt' >= una
    requires Seam(q, nxt, rcvNxt')
    ensures TileLink(q, una, nxt, rcvNxt', c, d + [m])
  {
  }

  /** Resets and other segments without sequence space or acknowledgement. */
  lemma TileNoise(q: seq<Entry>, una: nat, nxt: nat, rcvNxt: nat, c: seq<Segment>, d: seq<Segment>, m: Segment)
    requires TileLink(q, una, nxt, rcvNxt, c, d)
    ensures !Carries(m) ==> TileLink(q, una, nxt, rcvNxt, c, d + [m])
    ensures !Plain(m) || FullSpan(m) == 0 ==> TileLink(q, una, nxt, rcvNxt, c + [m], d)
  {
  }

  // ---- Before the connection ----

  lemma {:induction false} ChainNone(d: seq<Segment>, e: nat, t: nat)
    requires forall m :: m in d ==> !Carries(m)
    ensures Chain(0, 0, 0, d, 0, e, t)
  {
    if d == [] {
    } else {
      assert d[0] in d;
      ChainNone(d[1..], e, t);
    }
  }

  lemma {:induction false} InOrderResets(c: seq<Segment>, p: nat)
    requires forall m :: m in c ==> !Plain(m)
    ensures InOrder(p, c, p, -1)
  {
    if c == [] {
    } else {
      assert c[0] in c;
      InOrderResets(c[1..], p);
    }
  }

  /** A sender chooses its initial sequence number and sends its SYN; only resets went before. */
  lemma StartLink(tx: Tx, rx: Rx, live: bool, c: seq<Segment>, d: seq<Segment>, m: Segment, top: nat, e: Entry)
    requires tx.stream == [] && !tx.fin && rx.nxt == 0 && rx.copied == []
    requires forall x :: x in c ==> !Plain(x) && Genuine(tx, x)
    requires forall x :: x in d ==> !Carries(x)
    requires m.flags == (if tx.passive then SYN_ACK else SYN) && m.seqno == tx.iss && m.text == []
    requires e.seqno == tx.iss && e.flags == m.flags && e.text == []
    ensures DataLink(tx, rx, live, c + [m])
    ensures AckLink(tx, Sw(tx.iss, 0, 0, 0, 0, 0), rx, top, d)
    ensures TileLink([e], tx.iss, tx.iss + 1, 0, c + [m], d)
  {
    InOrderResets(c, tx.iss);
    InOrderAppend(tx.iss, c, tx.iss, -1, m);
    ChainNone(d, rx.Edge(), top);
    assert [e][1..] == [] && Tiles([e], tx.iss, tx.iss + 1);
  }
}
