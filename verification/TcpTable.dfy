/** The table of PCBs: choosing a slot for a segment, and why two connections never share their pair of endpoints. */
module TcpTable {
  import opened Base
  import opened Time
  import opened Tcp
  import TcpRun
  import opened TcpSlot

  const PCB_SIZE: int := 16

  // ---- Selection ----

  predicate MatchesLocal(p: Pcb, local: Endpoint) {
    (p.local.addr == IP_ADDR_ANY || p.local.addr == local.addr) && p.local.port == local.port
  }

  /** A slot that is taken at once. Without a foreign endpoint any local match will do. */
  predicate Exact(p: Pcb, local: Endpoint, foreign: Option<Endpoint>) {
    MatchesLocal(p, local) && (foreign.Some? ==> p.foreign == foreign.value)
  }

  /** A listening slot that takes a segment from anywhere. */
  predicate Wildcard(p: Pcb, local: Endpoint) {
    MatchesLocal(p, local) && p.state.Listen? && p.foreign == ANY_ENDPOINT
  }

  /**
   * `r` is what tcp_pcb_select returns: the first exact match in any slot; failing that, the last wildcard listener;
   * failing that, nothing.
   */
  ghost predicate Selected(ps: seq<Pcb>, local: Endpoint, foreign: Option<Endpoint>, r: Option<nat>) {
    match r
    case None => forall j :: 0 <= j < |ps| ==> !Exact(ps[j], local, foreign) && !Wildcard(ps[j], local)
    case Some(i) =>
      && i < |ps|
      && if Exact(ps[i], local, foreign) then
           forall j :: 0 <= j < i ==> !Exact(ps[j], local, foreign)
         else
           && (forall j :: 0 <= j < |ps| ==> !Exact(ps[j], local, foreign))
           && Wildcard(ps[i], local) && (forall j :: i < j < |ps| ==> !Wildcard(ps[j], local))
  }

  /** Selection has one outcome. */
  lemma SelectedIsUnique(ps: seq<Pcb>, local: Endpoint, foreign: Option<Endpoint>, r1: Option<nat>, r2: Option<nat>)
    requires Selected(ps, local, foreign, r1) && Selected(ps, local, foreign, r2)
    ensures r1 == r2
  {
  }

  /** Which slots may take a segment from `foreign` to `local`, field by field. */
  predicate MayTake(p: Pcb, local: Endpoint, foreign: Endpoint) {
    && p.local.port == local.port && (p.local.addr == local.addr || p.local.addr == 0)
    && (p.foreign == foreign || (p.state == Listen && p.foreign.addr == 0 && p.foreign.port == 0))
  }

  /**
   * A segment is for a slot with its destination port, its destination address or none, and its source, or for a
   * listener to anyone; for none exactly when there is no such slot; and never for a listener while a slot with its
   * source is there.
   */
  lemma SelectedMeans(ps: seq<Pcb>, local: Endpoint, foreign: Endpoint, r: Option<nat>)
    requires Selected(ps, local, Some(foreign), r)
    ensures r.Some? ==> r.value < |ps| && MayTake(ps[r.value], local, foreign)
    ensures r.None? <==> forall j :: 0 <= j < |ps| ==> !MayTake(ps[j], local, foreign)
    ensures r.Some? && ps[r.value].foreign != foreign ==>
              forall j :: 0 <= j < |ps| && MayTake(ps[j], local, foreign) ==> ps[j].foreign != foreign
  {
    forall j | 0 <= j < |ps|
      ensures MayTake(ps[j], local, foreign) <==> Exact(ps[j], local, Some(foreign)) || Wildcard(ps[j], local)
    {
    }
    if r.None? {
      forall j | 0 <= j < |ps| ensures !MayTake(ps[j], local, foreign) {
        assert !Exact(ps[j], local, Some(foreign)) && !Wildcard(ps[j], local);
      }
    } else if ps[r.value].foreign != foreign {
      forall j | 0 <= j < |ps| && MayTake(ps[j], local, foreign) ensures ps[j].foreign != foreign {
        assert !Exact(ps[j], local, Some(foreign));
      }
    }
  }

  // ---- Runs of the whole table ----

  datatype TableEvent =
    | OpenAt(index: nat, local: Endpoint, foreign: Endpoint, iss: u32, now: Timeval, ok: bool, destroyed: bool)
    | ListenAt(index: nat, local: Endpoint)
    | SegmentFor(chosen: Option<nat>, seg: Segment, local: Endpoint, foreign: Endpoint, iss: u32, now: Timeval,
                 destroyed: bool)
    | CallAt(index: nat, call: TcpRun.Event)

  /** `i` is the slot tcp_pcb_alloc takes. */
  ghost predicate FirstFree(ps: seq<Pcb>, i: nat) {
    i < |ps| && ps[i].state.Free? && forall j :: 0 <= j < i ==> !ps[j].state.Free?
  }

  ghost predicate PairTaken(ps: seq<Pcb>, local: Endpoint, foreign: Endpoint) {
    exists j :: 0 <= j < |ps| && ps[j].local == local && ps[j].foreign == foreign
  }

  /**
   * Passive opens are wildcard opens; an active open chooses a pair that is not in use; no segment claims to come from
   * 0.0.0.0:0.
   */
  ghost predicate Allowed(ps: seq<Pcb>, ev: TableEvent) {
    match ev
    case OpenAt(i, local, foreign, _, _, _, _) =>
      FirstFree(ps, i) && (foreign == ANY_ENDPOINT || !PairTaken(ps, local, foreign))
    case ListenAt(i, _) => FirstFree(ps, i)
    case SegmentFor(r, seg, local, foreign, iss, now, destroyed) =>
      && Selected(ps, local, Some(foreign), r) && foreign != ANY_ENDPOINT
      && (r.Some? ==> Arrives(ps[r.value], seg, local, foreign, iss, now, destroyed).Done?)
    case CallAt(i, call) =>
      && i < |ps| && !call.DoSegment? && !call.DoOpenActive? && !call.DoOpenPassive?
      && match call
         case DoSend(_, _, _, _) => CanSend(ps[i])
         case DoClose(_) => CanSend(ps[i])
         case DoTick(k, now) => k < |ps[i].queue| && ClocksNormal(ps[i].queue) && Normal(now)
         case _ => true
  }

  function Call(p: Pcb, call: TcpRun.Event): Pcb
    requires call.DoClose? ==> CanSend(p)
    requires call.DoTick? ==> call.index < |p.queue| && ClocksNormal(p.queue) && Normal(call.now)
  {
    match call
    case DoSend(text, now, ok, destroyed) => SendText(p, text, now, ok, destroyed).pcb
    case DoReceive(size) => (match ReceiveCall(p, size) case Got(p', _) => p' case _ => p)
    case DoClose(now) => CloseCall(p, now).pcb
    case DoTick(k, now) => Tick(p, k, now).pcb
    case DoAbort(destroyed) => Abort(p, destroyed)
    case _ => p
  }

  ghost function Next(ps: seq<Pcb>, ev: TableEvent): seq<Pcb>
    requires Allowed(ps, ev)
  {
    match ev
    case OpenAt(i, local, foreign, iss, now, ok, destroyed) =>
      ps[i := OpenActive(ps[i], local, foreign, iss, now, ok, destroyed).pcb]
    case ListenAt(i, local) => ps[i := OpenPassive(ps[i], local, None)]
    case SegmentFor(r, seg, local, foreign, iss, now, destroyed) =>
      if r.None? then ps
      else ps[r.value := Arrives(ps[r.value], seg, local, foreign, iss, now, destroyed).pcb]
    case CallAt(i, call) => ps[i := Call(ps[i], call)]
  }

  /** No two slots with a foreign endpoint have the same pair of endpoints. */
  ghost predicate PairsUnique(ps: seq<Pcb>) {
    forall i, j :: 0 <= i < j < |ps| && ps[i].foreign != ANY_ENDPOINT && ps[i].foreign == ps[j].foreign ==>
      ps[i].local != ps[j].local
  }

  ghost predicate TableInv(ps: seq<Pcb>) {
    && PairsUnique(ps)
    && (forall i :: 0 <= i < |ps| && ps[i].state.Listen? ==> ps[i].foreign == ANY_ENDPOINT)
    && (forall i :: 0 <= i < |ps| && ps[i].state.Free? ==> ps[i] == ZeroPcb())
  }

  /** A change that keeps a slot's endpoints, or clears the slot. */
  predicate KeepsPair(p: Pcb, p': Pcb) {
    || p' == ZeroPcb()
    || (p'.local == p.local && p'.foreign == p.foreign && (p'.state.Listen? ==> p.state.Listen?) && !p'.state.Free?)
    || p' == p
  }

  lemma KeepsPairKeeps(ps: seq<Pcb>, i: nat, p: Pcb)
    requires TableInv(ps) && i < |ps| && KeepsPair(ps[i], p)
    ensures TableInv(ps[i := p])
  {
  }

  /** A slot takes a pair that no slot has. */
  lemma NewPairKeeps(ps: seq<Pcb>, i: nat, p: Pcb)
    requires TableInv(ps) && i < |ps| && !p.state.Listen? && !p.state.Free?
    requires p.foreign == ANY_ENDPOINT || !PairTaken(ps, p.local, p.foreign)
    ensures TableInv(ps[i := p])
  {
  }

  lemma CallKeepsPair(p: Pcb, call: TcpRun.Event)
    requires call.DoClose? || call.DoSend? ==> CanSend(p)
    requires call.DoTick? ==> call.index < |p.queue| && ClocksNormal(p.queue) && Normal(call.now)
    requires p.state.Free? ==> p == ZeroPcb()
    ensures KeepsPair(p, Call(p, call))
  {
  }

  lemma AckKeepsPair(p: Pcb, s: Segment, local: Endpoint, foreign: Endpoint, destroyed: bool)
    requires !p.state.Listen? && !p.state.Free?
    ensures var r := AckPhase(p, s, local, foreign, destroyed);
            KeepsPair(p, r.pcb) && (r.Go? ==> !r.pcb.state.Free?)
  {
  }

  lemma TextAndFinKeepPair(p: Pcb, s: Segment)
    requires !p.state.Listen? && !p.state.Free? && TextPhase(p, s).Done?
    ensures var p' := FinPhase(TextPhase(p, s).pcb, s).pcb;
            p'.local == p.local && p'.foreign == p.foreign && !p'.state.Listen? && !p'.state.Free?
  {
  }

  /** Outside LISTEN a segment keeps the pair of endpoints. */
  lemma ArrivalKeepsPair(p: Pcb, s: Segment, local: Endpoint, foreign: Endpoint, iss: u32, now: Timeval,
                         destroyed: bool)
    requires !p.state.Listen? && !p.state.Free? && Arrives(p, s, local, foreign, iss, now, destroyed).Done?
    ensures KeepsPair(p, Arrives(p, s, local, foreign, iss, now, destroyed).pcb)
  {
    hide AckPhase, TextPhase, FinPhase;
    var ev := TcpRun.DoSegment(s, local, foreign, iss, now, destroyed);
    if p.state.SynSent? {
    } else if p.state.Closed? || !Processed(p, s) {
      TcpRun.NotProcessed(p, ev);
    } else {
      TcpRun.InOrder(p, ev);
      AckKeepsPair(p, s, local, foreign, destroyed);
      var a := AckPhase(p, s, local, foreign, destroyed);
      if a.Go? {
        TextAndFinKeepPair(a.pcb, s);
      }
    }
  }

  /** In LISTEN a segment is ignored, answered, or gives the slot its pair. */
  lemma ListenTakesPair(p: Pcb, s: Segment, local: Endpoint, foreign: Endpoint, iss: u32, now: Timeval,
                        destroyed: bool)
    requires p.state.Listen?
    ensures var r := Arrives(p, s, local, foreign, iss, now, destroyed);
            && r.Done?
            && (r.pcb == p || (r.pcb.local == local && r.pcb.foreign == foreign && r.pcb.state.SynReceived?))
  {
  }

  lemma SegmentKeepsTable(ps: seq<Pcb>, ev: TableEvent)
    requires TableInv(ps) && ev.SegmentFor? && Allowed(ps, ev)
    ensures TableInv(Next(ps, ev))
  {
    if ev.chosen.Some? {
      var i := ev.chosen.value;
      var p := ps[i];
      hide Arrives;
      if p.state.Listen? {
        ListenTakesPair(p, ev.seg, ev.local, ev.foreign, ev.iss, ev.now, ev.destroyed);
        var p' := Arrives(p, ev.seg, ev.local, ev.foreign, ev.iss, ev.now, ev.destroyed).pcb;
        assert !Exact(p, ev.local, Some(ev.foreign));
        assert !PairTaken(ps, ev.local, ev.foreign) by {
          forall j | 0 <= j < |ps| ensures !(ps[j].local == ev.local && ps[j].foreign == ev.foreign) {
            assert !Exact(ps[j], ev.local, Some(ev.foreign));
          }
        }
        if p' == p { assert ps[i := p] == ps; } else { NewPairKeeps(ps, i, p'); }
      } else {
        ArrivalKeepsPair(p, ev.seg, ev.local, ev.foreign, ev.iss, ev.now, ev.destroyed);
        KeepsPairKeeps(ps, i, Arrives(p, ev.seg, ev.local, ev.foreign, ev.iss, ev.now, ev.destroyed).pcb);
      }
    }
  }

  lemma TableEventKeeps(ps: seq<Pcb>, ev: TableEvent)
    requires TableInv(ps) && Allowed(ps, ev)
    ensures TableInv(Next(ps, ev))
  {
    match ev
    case SegmentFor(_, _, _, _, _, _, _) => SegmentKeepsTable(ps, ev);
    case CallAt(i, call) =>
      CallKeepsPair(ps[i], call);
      KeepsPairKeeps(ps, i, Call(ps[i], call));
    case ListenAt(_, _) =>
    case OpenAt(i, local, foreign, iss, now, ok, destroyed) =>
      var p := OpenActive(ps[i], local, foreign, iss, now, ok, destroyed).pcb;
      if p == ZeroPcb() { KeepsPairKeeps(ps, i, p); } else { NewPairKeeps(ps, i, p); }
  }

  ghost predicate IsTableRun(ps: seq<Pcb>, evs: seq<TableEvent>)
    decreases |evs|
  {
    evs != [] ==> Allowed(ps, evs[0]) && IsTableRun(Next(ps, evs[0]), evs[1..])
  }

  ghost function TableRun(ps: seq<Pcb>, evs: seq<TableEvent>): seq<Pcb>
    requires IsTableRun(ps, evs)
    decreases |evs|
  {
    if evs == [] then ps else TableRun(Next(ps, evs[0]), evs[1..])
  }

  lemma {:induction false} TableRunKeeps(ps: seq<Pcb>, evs: seq<TableEvent>)
    requires TableInv(ps) && IsTableRun(ps, evs)
    ensures TableInv(TableRun(ps, evs))
    decreases |evs|
  {
    if evs == [] {
    } else {
      TableEventKeeps(ps, evs[0]);
      TableRunKeeps(Next(ps, evs[0]), evs[1..]);
    }
  }

  function EmptyTable(): seq<Pcb> { seq(PCB_SIZE, _ => ZeroPcb()) }

  /**
   * In every run from the empty table, no two connections share their pair of endpoints, and a listening slot has no
   * foreign endpoint.
   */
  lemma PairsStayUnique(evs: seq<TableEvent>)
    requires IsTableRun(EmptyTable(), evs)
    ensures var ps := TableRun(EmptyTable(), evs);
            && PairsUnique(ps)
            && forall i :: 0 <= i < |ps| && ps[i].state.Listen? ==> ps[i].foreign == ANY_ENDPOINT
  {
    TableRunKeeps(EmptyTable(), evs);
  }

  /** The packets that a segment causes. */
  ghost function Answers(ps: seq<Pcb>, ev: TableEvent): seq<Packet>
    requires ev.SegmentFor? && Allowed(ps, ev)
  {
    if ev.chosen.None? then ClosedReply(ev.seg, ev.local, ev.foreign)
    else Arrives(ps[ev.chosen.value], ev.seg, ev.local, ev.foreign, ev.iss, ev.now, ev.destroyed).sent
  }

  /**
   * In every run from the empty table a segment changes at most one slot, and that one has its destination port, its
   * destination address or none, and its source, or was listening to anyone.
   */
  lemma SegmentTouchesOnlyItsSlot(evs: seq<TableEvent>, ps: seq<Pcb>, ev: TableEvent, i: nat)
    requires IsTableRun(EmptyTable(), evs) && ps == TableRun(EmptyTable(), evs)
    requires ev.SegmentFor? && Allowed(ps, ev) && i < |ps| && Next(ps, ev)[i] != ps[i]
    ensures var p := ps[i];
            && p.local.port == ev.local.port && (p.local.addr == ev.local.addr || p.local.addr == 0)
            && (p.foreign != Endpoint(0, 0) ==> p.foreign == ev.foreign)
            && (p.foreign == Endpoint(0, 0) ==> p.state == Listen)
    ensures |ps| == PCB_SIZE && forall j :: 0 <= j < |ps| && j != i ==> Next(ps, ev)[j] == ps[j]
  {
    hide Selected, Arrives;
    TableRunLength(EmptyTable(), evs);
    SelectedMeans(ps, ev.local, ev.foreign, ev.chosen);
    assert ev.chosen == Some(i);
  }

  lemma {:induction false} TableRunLength(ps: seq<Pcb>, evs: seq<TableEvent>)
    requires IsTableRun(ps, evs)
    ensures |TableRun(ps, evs)| == |ps|
    decreases |evs|
  {
    if evs == [] {
    } else {
      hide Allowed, Arrives;
      TableRunLength(Next(ps, evs[0]), evs[1..]);
    }
  }

  /** A SYN to a port that no slot has is answered by a reset that acknowledges the sequence number after it. */
  lemma SynToUnusedPort(evs: seq<TableEvent>, ps: seq<Pcb>, ev: TableEvent)
    requires IsTableRun(EmptyTable(), evs) && ps == TableRun(EmptyTable(), evs)
    requires ev.SegmentFor? && Allowed(ps, ev) && ev.seg.flags == SYN && ev.seg.text == []
    requires forall p :: p in ps ==> p.local.port != ev.local.port
    ensures Next(ps, ev) == ps
    ensures Answers(ps, ev) == [Packet(ev.local, ev.foreign, Segment(0, U32(ev.seg.seqno + 1), RST_ACK, 0, []))]
  {
    hide Selected;
    SelectedMeans(ps, ev.local, ev.foreign, ev.chosen);
  }

  /**
   * The reset that answers a segment without a slot: none to a reset; otherwise it has the sequence number that the
   * segment acknowledges, or, if it acknowledges none, it acknowledges the sequence number after the segment.
   */
  lemma ClosedReplyMeans(s: Segment, local: Endpoint, foreign: Endpoint)
    requires |s.text| + 2 < TWO16
    ensures var r := ClosedReply(s, local, foreign);
            && (s.flags.rst <==> r == [])
            && (!s.flags.rst ==> |r| == 1 && r[0].src == local && r[0].dst == foreign && r[0].seg.flags.rst)
            && (!s.flags.rst && s.flags.ack ==> r[0].seg.seqno == s.ack && !r[0].seg.flags.ack)
            && (!s.flags.rst && !s.flags.ack ==>
                  && r[0].seg.flags.ack && r[0].seg.seqno == 0
                  && r[0].seg.ack == U32(s.seqno + |s.text| + (if s.flags.syn then 1 else 0)
                                         + (if s.flags.fin then 1 else 0)))
  {
  }

  /** A peer in SYN-SENT finds the reset for its SYN acceptable: it neither answers nor changes. */
  lemma ResetFitsItsSyn(q: Pcb, local: Endpoint, foreign: Endpoint, iss: u32, now: Timeval, destroyed: bool)
    requires q.state.SynSent? && q.sndNxt == q.iss + 1
    ensures var r := ClosedReply(Segment(q.iss, 0, SYN, q.rcvWnd, []), local, foreign);
            |r| == 1 && Arrives(q, r[0].seg, foreign, local, iss, now, destroyed) == Done(q, [])
  {
  }

  /** A slot that takes a pair keeps the pairs unique exactly when no other slot has it. */
  lemma NewPairUniqueIff(ps: seq<Pcb>, i: nat, p: Pcb)
    requires PairsUnique(ps) && i < |ps| && p.foreign != ANY_ENDPOINT
    ensures PairsUnique(ps[i := p]) <==>
            forall j :: 0 <= j < |ps| && j != i ==> !(ps[j].local == p.local && ps[j].foreign == p.foreign)
  {
    var qs := ps[i := p];
    if PairsUnique(qs) {
      forall j | 0 <= j < |ps| && j != i ensures !(ps[j].local == p.local && ps[j].foreign == p.foreign) {
        assert qs[j] == ps[j] && qs[i] == p;
      }
    }
  }

  /**
   * tcp_open_rfc793 does not look for its pair in the table: an active open that gets its SYN out keeps the pairs
   * unique exactly when no slot has its pair.
   */
  lemma ActiveOpenUniqueIff(ps: seq<Pcb>, i: nat, local: Endpoint, foreign: Endpoint, iss: u32, now: Timeval)
    requires TableInv(ps) && FirstFree(ps, i) && foreign != ANY_ENDPOINT
    ensures PairsUnique(ps[i := OpenActive(ps[i], local, foreign, iss, now, true, true).pcb]) <==>
            !PairTaken(ps, local, foreign)
  {
    NewPairUniqueIff(ps, i, OpenActive(ps[i], local, foreign, iss, now, true, true).pcb);
    assert ps[i].foreign != foreign;
  }

  /** Two active opens of one pair, from the empty table, leave two slots with that pair. */
  lemma TwoOpensShareAPair(local: Endpoint, foreign: Endpoint, iss: u32, iss': u32, now: Timeval)
    requires foreign != ANY_ENDPOINT
    ensures var first := OpenAt(0, local, foreign, iss, now, true, true);
            Allowed(EmptyTable(), first) &&
            var ps := Next(EmptyTable(), first);
            FirstFree(ps, 1) && !PairsUnique(ps[1 := OpenActive(ps[1], local, foreign, iss', now, true, true).pcb])
  {
    var first := OpenAt(0, local, foreign, iss, now, true, true);
    var ps := Next(EmptyTable(), first);
    assert ps[0].local == local && ps[0].foreign == foreign;
    assert TableInv(ps) by { TableEventKeeps(EmptyTable(), first); }
    ActiveOpenUniqueIff(ps, 1, local, foreign, iss', now);
  }

  /** A SYN that a listener takes, wildcard or not, keeps the pairs unique exactly when no other slot has its pair. */
  lemma ListenUniqueIff(ps: seq<Pcb>, i: nat, s: Segment, local: Endpoint, foreign: Endpoint, iss: u32, now: Timeval)
    requires PairsUnique(ps) && i < |ps| && ps[i].state.Listen? && foreign != ANY_ENDPOINT
    requires s.flags.syn && !s.flags.ack && !s.flags.rst
    ensures PairsUnique(ps[i := Arrives(ps[i], s, local, foreign, iss, now, true).pcb]) <==>
            forall j :: 0 <= j < |ps| && j != i ==> !(ps[j].local == local && ps[j].foreign == foreign)
  {
    NewPairUniqueIff(ps, i, Arrives(ps[i], s, local, foreign, iss, now, true).pcb);
  }

  // ---- The table in place ----

  /** One clock reading for each queued segment. */
  predicate Readable(p: Pcb, clock: seq<Timeval>) {
    |clock| == |p.queue| && ClocksNormal(p.queue) && forall i :: 0 <= i < |clock| ==> Normal(clock[i])
  }

  function Ticked(p: Pcb, clock: seq<Timeval>): Step
    requires Readable(p, clock)
  {
    if p.state.Free? then Step(p, []) else TickAll(p, clock)
  }

  class Table {
    const slots: array<Slot>
    var replies: seq<Packet>  // the resets that answer segments for no slot

    ghost predicate Valid()
      reads slots, slots[..], set i | 0 <= i < slots.Length :: slots[i].buf
    {
      && slots.Length == PCB_SIZE
      && (forall i :: 0 <= i < slots.Length ==> slots[i].Valid())
      && (forall i, j :: 0 <= i < j < slots.Length ==> slots[i] != slots[j] && slots[i].buf != slots[j].buf)
    }

    ghost function Views(): (ps: seq<Pcb>)
      reads slots, slots[..]
      ensures |ps| == slots.Length && forall i :: 0 <= i < |ps| ==> ps[i] == slots[i].View()
    {
      seq(slots.Length, i requires 0 <= i < slots.Length reads slots, slots[..] => slots[i].View())
    }

    /** Sixteen cleared slots. */
    constructor ()
      ensures Valid() && Views() == EmptyTable() && replies == []
      ensures fresh(slots) && forall i :: 0 <= i < PCB_SIZE ==> fresh(slots[i]) && fresh(slots[i].buf)
      ensures forall i :: 0 <= i < PCB_SIZE ==> slots[i].wire == []
    {
      var slot := new Slot();
      slots := new Slot[16](_ => slot);
      replies := [];
      new;
      hide Slot.Valid, Slot.View, ZeroPcb;
      for i := 0 to 16
        invariant fresh(slots) && replies == []
        invariant forall j :: 0 <= j < i ==> fresh(slots[j]) && fresh(slots[j].buf)
        invariant forall j :: 0 <= j < i ==> slots[j].Valid() && slots[j].View() == ZeroPcb() && slots[j].wire == []
        invariant forall j, k :: 0 <= j < k < i ==> slots[j] != slots[k] && slots[j].buf != slots[k].buf
      {
        slots[i] := new Slot();
      }
    }

    /** tcp_pcb_alloc: the slot that is taken is the first free one. */
    method Alloc() returns (r: Option<nat>)
      requires Valid()
      modifies slots[..]
      ensures Valid()
      ensures r.None? ==> Views() == old(Views()) && forall i :: 0 <= i < PCB_SIZE ==> !Views()[i].state.Free?
      ensures r.Some? ==>
                && FirstFree(old(Views()), r.value)
                && Views() == old(Views())[r.value := old(Views())[r.value].(state := Closed)]
    {
      for i := 0 to slots.Length
        invariant Valid() && Views() == old(Views())
        invariant forall j :: 0 <= j < i ==> !Views()[j].state.Free?
      {
        if slots[i].state.Free? {
          assert Views()[i].state.Free?;
          slots[i].state := Closed;
          return Some(i);
        }
      }
      return None;
    }

    /** tcp_pcb_select. */
    method Select(local: Endpoint, foreign: Option<Endpoint>) returns (r: Option<nat>)
      requires Valid()
      ensures Selected(Views(), local, foreign, r)
    {
      r := None;
      for i := 0 to slots.Length
        invariant forall j :: 0 <= j < i ==> !Exact(Views()[j], local, foreign)
        invariant r.None? ==> forall j :: 0 <= j < i ==> !Wildcard(Views()[j], local)
        invariant r.Some? ==> r.value < i && Wildcard(Views()[r.value], local)
        invariant r.Some? ==> forall j :: r.value < j < i ==> !Wildcard(Views()[j], local)
      {
        var slot := slots[i];
        assert Views()[i] == slot.View();
        if (slot.local.addr == IP_ADDR_ANY || slot.local.addr == local.addr) && slot.local.port == local.port {
          if foreign.None? {
            return Some(i);
          }
          if slot.foreign == foreign.value {
            return Some(i);
          }
          if slot.state.Listen? && slot.foreign == ANY_ENDPOINT {
            r := Some(i);
          }
        }
      }
    }

    method Deliver(i: nat, s: Segment, local: Endpoint, foreign: Endpoint, iss: u32, now: Timeval, destroyed: bool)
      returns (overrun: bool)
      requires Valid() && i < slots.Length
      modifies slots[i], slots[i].buf
      ensures Valid()
      ensures var r := Arrives(old(Views())[i], s, local, foreign, iss, now, destroyed);
              && overrun == r.Overrun?
              && (r.Done? ==> Views() == old(Views())[i := r.pcb] && slots[i].wire == old(slots[i].wire) + r.sent)
    {
      hide Arrives;
      overrun := slots[i].SegmentArrives(s, local, foreign, iss, now, destroyed);
    }

    /** tcp_segment_arrives, slot selection included: no slot but the selected one changes. */
    method SegmentArrives(s: Segment, local: Endpoint, foreign: Endpoint, iss: u32, now: Timeval, destroyed: bool)
      returns (chosen: Option<nat>, overrun: bool)
      requires Valid()
      modifies this, slots[..], set i | 0 <= i < slots.Length :: slots[i].buf
      ensures Valid()
      ensures Selected(old(Views()), local, Some(foreign), chosen)
      ensures chosen.None? ==>
                !overrun && Views() == old(Views()) && replies == old(replies) + ClosedReply(s, local, foreign)
      ensures chosen.Some? ==>
                var r := Arrives(old(Views())[chosen.value], s, local, foreign, iss, now, destroyed);
                && overrun == r.Overrun? && replies == old(replies)
                && (r.Done? ==>
                      && Views() == old(Views())[chosen.value := r.pcb]
                      && slots[chosen.value].wire == old(slots[chosen.value].wire) + r.sent)
      ensures forall i :: 0 <= i < PCB_SIZE && chosen != Some(i) ==> slots[i].wire == old(slots[i].wire)
    {
      hide Slot.Valid, Slot.View;
      chosen := Select(local, Some(foreign));
      overrun := false;
      if chosen.None? {
        if s.flags.rst {
          return;
        }
        if !s.flags.ack {
          replies := replies + [Packet(local, foreign, Segment(0, U32(s.seqno + SegLen(s)), RST_ACK, 0, []))];
        } else {
          replies := replies + [Packet(local, foreign, Segment(s.ack, 0, RST, 0, []))];
        }
        return;
      }
      overrun := Deliver(chosen.value, s, local, foreign, iss, now, destroyed);
    }
  
    /**
     * tcp_timer: every slot in use has its queue visited, with the given clock readings; free slots are passed over.
     */
    method Timer(clocks: seq<seq<Timeval>>)
      requires Valid() && |clocks| == PCB_SIZE
      requires forall i :: 0 <= i < PCB_SIZE ==> Readable(Views()[i], clocks[i])
      modifies slots[..]
      ensures Valid()
      ensures forall i :: 0 <= i < PCB_SIZE ==>
                && Readable(old(Views()[i]), clocks[i])
                && Views()[i] == Ticked(old(Views()[i]), clocks[i]).pcb
                && slots[i].wire == old(slots[i].wire) + Ticked(old(Views()[i]), clocks[i]).sent
    {
      hide Slot.Valid, Slot.View, Ticked;
      ghost var before := Views();
      for i := 0 to slots.Length
        invariant Valid()
        invariant forall j :: 0 <= j < PCB_SIZE ==> Readable(before[j], clocks[j])
        invariant forall j :: 0 <= j < i ==>
                    && slots[j].View() == Ticked(before[j], clocks[j]).pcb
                    && slots[j].wire == old(slots[j].wire) + Ticked(before[j], clocks[j]).sent
        invariant forall j :: i <= j < PCB_SIZE ==> slots[j].View() == before[j] && slots[j].wire == old(slots[j].wire)
      {
        assert Readable(before[i], clocks[i]);
        VisitSlot(i, clocks[i]);
      }
    }

    method VisitSlot(i: nat, clock: seq<Timeval>)
      requires Valid() && i < slots.Length && Readable(slots[i].View(), clock)
      modifies slots[i]
      ensures Valid() && slots[i].View() == Ticked(old(slots[i].View()), clock).pcb
      ensures slots[i].wire == old(slots[i].wire) + Ticked(old(slots[i].View()), clock).sent
    {
      if !slots[i].state.Free? {
        slots[i].Timer(clock);
      }
    }
  }
}
