/**
 The retransmission queue as tcp.c keeps it: entries on the heap, linked through the queue of util.c, peeked at and
 popped from its head, visited and updated in place. Its contents are proved to be what `Tcp` and `TcpSlot` hold as a
 sequence.
 */
module TcpQueue {
  import opened Base
  import opened Time
  import opened Tcp
  import opened Queue
  import opened TcpSlot

  /** A `struct tcp_queue_entry`. */
  class Cell {
    var entry: Entry

    constructor (entry: Entry)
      ensures this.entry == entry
    {
      this.entry := entry;
    }
  }

  ghost predicate DistinctCells(cells: seq<Cell>) {
    forall i, j :: 0 <= i < j < |cells| ==> cells[i] != cells[j]
  }

  ghost function Entries(cells: seq<Cell>): (q: seq<Entry>)
    reads cells
    ensures |q| == |cells| && forall i :: 0 <= i < |q| ==> q[i] == cells[i].entry
  {
    seq(|cells|, i requires 0 <= i < |cells| reads cells => cells[i].entry)
  }

  lemma EntriesRest(cells: seq<Cell>)
    requires cells != [] && DistinctCells(cells)
    ensures Entries(cells)[1..] == Entries(cells[1..]) && DistinctCells(cells[1..])
  {
  }

  predicate Readings(p: Pcb, clock: seq<Timeval>) {
    |clock| <= |p.queue| && ClocksNormal(p.queue) && forall i :: 0 <= i < |clock| ==> Normal(clock[i])
  }

  lemma TickAllStep(p: Pcb, clock: seq<Timeval>, i: nat)
    requires Readings(p, clock) && i < |clock|
    ensures Readings(p, clock[..i]) && Readings(p, clock[..i + 1])
    ensures var before := TickAll(p, clock[..i]);
            && |before.pcb.queue| == |p.queue| && ClocksNormal(before.pcb.queue)
            && var last := Tick(before.pcb, i, clock[i]);
               TickAll(p, clock[..i + 1]) == Step(last.pcb, before.sent + last.sent)
  {
    assert clock[..i + 1][..i] == clock[..i];
  }

  lemma TickAllNone(p: Pcb)
    requires ClocksNormal(p.queue)
    ensures TickAll(p, []) == Step(p, [])
  {
  }

  class RetransmitQueue {
    const fifo: Fifo<Cell>

    ghost predicate Valid()
      reads fifo, fifo.Repr
    {
      fifo.Valid() && DistinctCells(fifo.Contents()) && forall c :: c in fifo.Contents() ==> c !in fifo.Repr
    }

    constructor ()
      ensures Valid() && fresh(fifo.Repr) && fifo.Contents() == []
    {
      fifo := new Fifo<Cell>();
    }

    /** tcp_retransmit_queue_add. */
    method Add(seqno: u32, flags: Flags, text: seq<byte>, now: Timeval)
      requires Valid()
      modifies fifo.Repr
      ensures Valid() && fresh(fifo.Repr - old(fifo.Repr))
      ensures Entries(fifo.Contents()) ==
              old(Entries(fifo.Contents())) + [Entry(now, now, DEFAULT_RTO, seqno, flags, text)]
    {
      hide Fifo.Valid;
      var cell := new Cell(Entry(now, now, DEFAULT_RTO, seqno, flags, text));
      fifo.Push(cell);
    }

    /** tcp_retransmit_queue_cleanup: peek, and pop what is acknowledged. */
    method RemoveAcked(una: u32)
      requires Valid()
      modifies fifo
      ensures Valid() && fifo.Repr == old(fifo.Repr)
      ensures Entries(fifo.Contents()) == Cleanup(old(Entries(fifo.Contents())), una)
    {
      hide Fifo.Valid, Fifo.Contents;
      while true
        invariant Valid() && fifo.Repr == old(fifo.Repr)
        invariant Cleanup(Entries(fifo.Contents()), una) == Cleanup(old(Entries(fifo.Contents())), una)
        decreases |fifo.Contents()|
      {
        ghost var cells := fifo.Contents();
        var cell := fifo.Peek();
        if cell.None? {
          break;
        }
        if cell.value.entry.seqno >= una {
          break;
        }
        var _ := fifo.Pop();
        EntriesRest(cells);
      }
    }

    /**
     * queue_foreach with tcp_retransmit_queue_emit: every entry in order, updated where it is. `p` is the PCB that the
     * queue belongs to.
     */
    method EmitAll(p: Pcb, clock: seq<Timeval>) returns (closed: bool, sent: seq<Packet>)
      requires Valid() && p.queue == Entries(fifo.Contents())
      requires |clock| == |p.queue| && Readings(p, clock)
      modifies fifo.Contents()
      ensures Valid() && fifo.Contents() == old(fifo.Contents())
      ensures var r := TickAll(p, clock);
              && Entries(fifo.Contents()) == r.pcb.queue && sent == r.sent
              && r.pcb == p.(queue := r.pcb.queue, state := if closed then Closed else p.state)
    {
      hide Fifo.Valid, Tick, TickAll;
      var cells := fifo.Foreach();
      closed, sent := false, [];
      TickAllNone(p);
      assert clock[..0] == [];
      ghost var now := Step(p, []);  // the PCB and the segments so far
      for i := 0 to |cells|
        invariant fifo.Contents() == cells && Valid()
        invariant Readings(p, clock[..i]) && now == TickAll(p, clock[..i])
        invariant Entries(cells) == now.pcb.queue && sent == now.sent
        invariant now.pcb == p.(queue := now.pcb.queue, state := if closed then Closed else p.state)
      {
        TickAllStep(p, clock, i);
        var expired, packets := EmitOne(cells[i], now.pcb, i, clock[i], p.local, p.foreign, p.rcvNxt, p.rcvWnd);
        assert Entries(cells) == now.pcb.queue[i := cells[i].entry];
        closed, sent := closed || expired, sent + packets;
        now := TickAll(p, clock[..i + 1]);
      }
      assert clock[..|cells|] == clock;
    }

    /** tcp_retransmit_queue_emit on one entry. */
    method EmitOne(cell: Cell, ghost p: Pcb, ghost i: nat, now: Timeval, local: Endpoint, foreign: Endpoint,
                   rcvNxt: u32, rcvWnd: u16)
      returns (expired: bool, sent: seq<Packet>)
      requires i < |p.queue| && cell.entry == p.queue[i] && ClocksNormal(p.queue) && Normal(now)
      requires p.local == local && p.foreign == foreign && p.rcvNxt == rcvNxt && p.rcvWnd == rcvWnd
      modifies cell
      ensures Tick(p, i, now).pcb ==
              p.(queue := p.queue[i := cell.entry], state := if expired then Closed else p.state)
      ensures sent == Tick(p, i, now).sent
    {
      var entry := cell.entry;
      expired, sent := false, [];
      assert p.queue[i := p.queue[i]] == p.queue;
      var diff := Sub(now, entry.first);
      if diff.sec >= RETRANSMIT_DEADLINE {
        expired := true;
        return;
      }
      var timeout := AddUsec(entry.last, entry.rto);
      if After(now, timeout) {
        sent := [Packet(local, foreign, Segment(entry.seqno, rcvNxt, entry.flags, rcvWnd, entry.text))];
        cell.entry := entry.(last := now, rto := entry.rto * 2);
      }
    }
  }
}
