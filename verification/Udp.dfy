/**
 The PCB table of udp.c: binding, automatic source ports, demultiplexing and the receive queues, over every run of the
 calls on a host with one address. A step is one critical section.
 */
module Udp {
  import opened Base
  import opened Checksum

  const PCB_SIZE: int := 16
  const SOURCE_PORT_MIN: int := 49152
  const SOURCE_PORT_MAX: int := 65535

  datatype State = Free | Open | Closing

  /** A received datagram in a queue. */
  datatype Entry = Entry(foreign: Endpoint, data: seq<byte>)

  datatype Pcb = Pcb(state: State, local: Endpoint, queue: seq<Entry>)

  const NEW_PCB := Pcb(Free, ANY_ENDPOINT, [])

  // ---- Selection ----

  predicate Matches(p: Pcb, addr: u32, port: u16) {
    && p.state.Open?
    && (p.local.addr == IP_ADDR_ANY || addr == IP_ADDR_ANY || p.local.addr == addr) && p.local.port == port
  }

  /** udp_pcb_select returns the first match. */
  ghost predicate Selects(ps: seq<Pcb>, addr: u32, port: u16, r: Option<nat>) {
    match r
    case None => forall j :: 0 <= j < |ps| ==> !Matches(ps[j], addr, port)
    case Some(i) => i < |ps| && Matches(ps[i], addr, port) && forall j :: 0 <= j < i ==> !Matches(ps[j], addr, port)
  }

  ghost predicate FirstFree(ps: seq<Pcb>, i: nat) {
    i < |ps| && ps[i].state.Free? && forall j :: 0 <= j < i ==> !ps[j].state.Free?
  }

  /** udp_pcb_release; `destroyed` says whether nobody waits on the PCB. */
  function Release(p: Pcb, destroyed: bool): Pcb { if destroyed then NEW_PCB else p.(state := Closing) }

  // ---- Steps ----

  /** The table, and for each slot what arrived for it and what was received from it since it was opened. */
  datatype Table = Table(pcbs: seq<Pcb>, arrived: seq<seq<Entry>>, taken: seq<seq<Entry>>)

  datatype Step =
    | OpenStep(at: nat)
    | CloseStep(at: nat, destroyed: bool)
    | BindStep(at: nat, local: Endpoint)
    | PortStep(at: nat, addr: u32, port: u16)          // udp_sendto chooses a source port
    | InputStep(at: nat, addr: u32, port: u16, entry: Entry)
    | TakeStep(at: nat)                                // udp_recvfrom pops an entry

  ghost predicate Enabled(t: Table, s: Step) {
    && s.at < |t.pcbs| == |t.arrived| == |t.taken|
    && var p := t.pcbs[s.at];
       match s
       case OpenStep(i) => FirstFree(t.pcbs, i)
       case CloseStep(_, _) => !p.state.Free?
       case BindStep(_, local) => p.state.Open? && Selects(t.pcbs, local.addr, local.port, None)
       case PortStep(_, addr, port) => p.state.Open? && p.local.port == 0 && Selects(t.pcbs, addr, port, None)
       case InputStep(i, addr, port, _) => Selects(t.pcbs, addr, port, Some(i))
       case TakeStep(_) => p.queue != []
  }

  /** The step uses no other address than the host's. */
  predicate OnOneAddress(s: Step, host: u32) {
    && (s.BindStep? ==> s.local.addr == IP_ADDR_ANY || s.local.addr == host)
    && (s.PortStep? ==> s.addr == host)
  }

  ghost function Next(t: Table, s: Step): Table
    requires Enabled(t, s)
  {
    var i, p := s.at, t.pcbs[s.at];
    match s
    case OpenStep(_) => Table(t.pcbs[i := p.(state := Open)], t.arrived[i := []], t.taken[i := []])
    case CloseStep(_, destroyed) => t.(pcbs := t.pcbs[i := Release(p, destroyed)])
    case BindStep(_, local) => t.(pcbs := t.pcbs[i := p.(local := local)])
    case PortStep(_, _, port) => t.(pcbs := t.pcbs[i := p.(local := p.local.(port := port))])
    case InputStep(_, _, _, entry) =>
      t.(pcbs := t.pcbs[i := p.(queue := p.queue + [entry])], arrived := t.arrived[i := t.arrived[i] + [entry]])
    case TakeStep(_) =>
      t.(pcbs := t.pcbs[i := p.(queue := p.queue[1..])], taken := t.taken[i := t.taken[i] + [p.queue[0]]])
  }

  predicate SlotOk(p: Pcb, arrived: seq<Entry>, taken: seq<Entry>) {
    && (p.state.Free? ==> p == NEW_PCB)
    && (!p.state.Free? ==> arrived == taken + p.queue)
  }

  /** What holds with any addresses: free slots are clear, and the datagrams of the others are conserved. */
  ghost predicate Conserved(t: Table) {
    && |t.pcbs| == |t.arrived| == |t.taken|
    && (forall i :: 0 <= i < |t.pcbs| ==> SlotOk(t.pcbs[i], t.arrived[i], t.taken[i]))
  }

  ghost predicate LocalTo(ps: seq<Pcb>, host: u32) {
    forall i :: 0 <= i < |ps| && ps[i].state.Open? ==> ps[i].local.addr == IP_ADDR_ANY || ps[i].local.addr == host
  }

  ghost predicate PortsDistinct(ps: seq<Pcb>) {
    forall i, j :: 0 <= i < j < |ps| && ps[i].state.Open? && ps[j].state.Open? && ps[i].local.port != 0 ==>
      ps[i].local.port != ps[j].local.port
  }

  /** What holds moreover on a host with one address. */
  ghost predicate Inv(t: Table, host: u32) { Conserved(t) && LocalTo(t.pcbs, host) && PortsDistinct(t.pcbs) }

  /** With one address the address part of a match never tells two PCBs apart. */
  lemma FreePortIff(ps: seq<Pcb>, host: u32, addr: u32, port: u16)
    requires LocalTo(ps, host) && (addr == IP_ADDR_ANY || addr == host)
    ensures Selects(ps, addr, port, None) <==>
            forall j :: 0 <= j < |ps| && ps[j].state.Open? ==> ps[j].local.port != port
  {
    if Selects(ps, addr, port, None) {
      forall j | 0 <= j < |ps| && ps[j].state.Open? ensures ps[j].local.port != port {
        assert !Matches(ps[j], addr, port);
      }
    }
  }

  /** Every step keeps the datagrams, whatever addresses are bound. */
  lemma StepConserves(t: Table, s: Step)
    requires Conserved(t) && Enabled(t, s)
    ensures Conserved(Next(t, s)) && |Next(t, s).pcbs| == |t.pcbs|
  {
    assert SlotOk(t.pcbs[s.at], t.arrived[s.at], t.taken[s.at]);
  }

  lemma StepPorts(t: Table, s: Step, host: u32)
    requires Inv(t, host) && Enabled(t, s) && OnOneAddress(s, host)
    ensures LocalTo(Next(t, s).pcbs, host) && PortsDistinct(Next(t, s).pcbs)
  {
    assert SlotOk(t.pcbs[s.at], t.arrived[s.at], t.taken[s.at]);
    match s
    case BindStep(_, local) => FreePortIff(t.pcbs, host, local.addr, local.port);
    case PortStep(_, addr, port) => FreePortIff(t.pcbs, host, addr, port);
    case _ =>
  }

  lemma StepKeeps(t: Table, s: Step, host: u32)
    requires Inv(t, host) && Enabled(t, s) && OnOneAddress(s, host)
    ensures Inv(Next(t, s), host) && |Next(t, s).pcbs| == |t.pcbs|
  {
    StepPorts(t, s, host);
    StepConserves(t, s);
  }

  /**
   * A closed PCB matches nothing any more. Its slot is free, and its datagrams are gone, unless somebody still waits on
   * it; then it stays as it is until the waiter releases it.
   */
  lemma CloseMeans(t: Table, s: Step)
    requires Conserved(t) && s.CloseStep? && Enabled(t, s)
    ensures var p := Next(t, s).pcbs[s.at];
            && (forall addr: u32, port: u16 :: !Matches(p, addr, port))
            && (s.destroyed ==> p.state == Free && p.local == Endpoint(0, 0) && p.queue == [])
            && (!s.destroyed ==> p.state == Closing && p.local == t.pcbs[s.at].local && p.queue == t.pcbs[s.at].queue)
    ensures forall j :: 0 <= j < |t.pcbs| && j != s.at ==> Next(t, s).pcbs[j] == t.pcbs[j]
  {
  }

  ghost predicate IsRun(t: Table, steps: seq<Step>)
    decreases |steps|
  {
    steps != [] ==> Enabled(t, steps[0]) && IsRun(Next(t, steps[0]), steps[1..])
  }

  ghost function Run(t: Table, steps: seq<Step>): Table
    requires IsRun(t, steps)
    decreases |steps|
  {
    if steps == [] then t else Run(Next(t, steps[0]), steps[1..])
  }

  lemma {:induction false} RunKeeps(t: Table, steps: seq<Step>, host: u32)
    requires Conserved(t) && IsRun(t, steps)
    ensures Conserved(Run(t, steps)) && |Run(t, steps).pcbs| == |t.pcbs|
    ensures Inv(t, host) && (forall s :: s in steps ==> OnOneAddress(s, host)) ==> Inv(Run(t, steps), host)
    decreases |steps|
  {
    if steps == [] {
    } else {
      StepConserves(t, steps[0]);
      if Inv(t, host) && OnOneAddress(steps[0], host) { StepKeeps(t, steps[0], host); }
      hide Enabled, Next, Conserved, LocalTo, PortsDistinct;
      assert steps[0] in steps;
      RunKeeps(Next(t, steps[0]), steps[1..], host);
    }
  }

  function NewTable(): Table {
    Table(seq(PCB_SIZE, _ => NEW_PCB), seq(PCB_SIZE, _ => []), seq(PCB_SIZE, _ => []))
  }

  /**
   * In every run, on any addresses: what was received from a PCB is what arrived for it, in order, each datagram once,
   * up to the datagrams that still wait. If every bind and every automatic port is on one address, at most one PCB
   * matches any address and nonzero port.
   */
  lemma Unambiguous(steps: seq<Step>, host: u32, addr: u32, port: u16, i: nat, j: nat)
    requires IsRun(NewTable(), steps) && port != 0 && i < PCB_SIZE && j < PCB_SIZE
    ensures var t := Run(NewTable(), steps);
            && |t.pcbs| == |t.arrived| == |t.taken| == PCB_SIZE
            && (!t.pcbs[i].state.Free? ==> t.arrived[i] == t.taken[i] + t.pcbs[i].queue)
            && ((forall s :: s in steps ==> OnOneAddress(s, host)) ==>
                  (Matches(t.pcbs[i], addr, port) && Matches(t.pcbs[j], addr, port) ==> i == j))
  {
    RunKeeps(NewTable(), steps, host);
    var t := Run(NewTable(), steps);
    assert SlotOk(t.pcbs[i], t.arrived[i], t.taken[i]);
  }

  /** Binding to port 0 always fails: the PCB that is being bound, or any other that has no port yet, matches. */
  lemma BindToPortZeroFails(ps: seq<Pcb>, host: u32, i: nat, addr: u32)
    requires LocalTo(ps, host) && i < |ps| && ps[i].state.Open? && ps[i].local.port == 0
    requires addr == IP_ADDR_ANY || addr == host
    ensures !Selects(ps, addr, 0, None)
  {
    FreePortIff(ps, host, addr, 0);
  }

  // ---- Several addresses ----

  /** No two open PCBs match one address and nonzero port. */
  ghost predicate AtMostOne(ps: seq<Pcb>) {
    forall i, j, addr: u32, port: u16 ::
      0 <= i < j < |ps| && addr != IP_ADDR_ANY && port != 0 && Matches(ps[i], addr, port) ==>
        !Matches(ps[j], addr, port)
  }

  /** The same without the quantified endpoint: equal ports need two different addresses, neither the wildcard. */
  ghost predicate Told(ps: seq<Pcb>) {
    forall i, j :: 0 <= i < j < |ps| ==> ToldApart(ps[i], ps[j])
  }

  predicate ToldApart(p: Pcb, q: Pcb) {
    p.state.Open? && q.state.Open? && p.local.port == q.local.port != 0 ==>
      p.local.addr != IP_ADDR_ANY && q.local.addr != IP_ADDR_ANY && p.local.addr != q.local.addr
  }

  lemma AtMostOneIff(ps: seq<Pcb>)
    ensures AtMostOne(ps) <==> Told(ps)
  {
    if AtMostOne(ps) {
      forall i, j | 0 <= i < j < |ps| ensures ToldApart(ps[i], ps[j]) {
        var addr := if ps[i].local.addr != IP_ADDR_ANY then ps[i].local.addr
                    else if ps[j].local.addr != IP_ADDR_ANY then ps[j].local.addr else 1;
        assert Matches(ps[i], addr, ps[i].local.port) ==>
                 ps[i].local.port == 0 || !Matches(ps[j], addr, ps[i].local.port);
      }
    } else {
      var i, j, addr: u32, port: u16 :|
        0 <= i < j < |ps| && addr != IP_ADDR_ANY && port != 0 && Matches(ps[i], addr, port)
        && Matches(ps[j], addr, port);
      assert !ToldApart(ps[i], ps[j]);
    }
  }

  /** On any addresses, every step but the automatic port of a wildcard PCB keeps matches unique. */
  lemma StepKeepsTold(t: Table, s: Step)
    requires Conserved(t) && Told(t.pcbs) && Enabled(t, s)
    requires s.PortStep? ==> t.pcbs[s.at].local.addr == s.addr != IP_ADDR_ANY
    ensures Told(Next(t, s).pcbs)
  {
    var ps, qs := t.pcbs, Next(t, s).pcbs;
    assert SlotOk(ps[s.at], t.arrived[s.at], t.taken[s.at]);
    forall j | 0 <= j < |ps| && j != s.at ensures ToldApart(qs[s.at], ps[j]) && ToldApart(ps[j], qs[s.at]) {
      assert ToldApart(ps[s.at], ps[j]) || ToldApart(ps[j], ps[s.at]);
      if s.BindStep? { assert !Matches(ps[j], s.local.addr, s.local.port); }
      if s.PortStep? { assert !Matches(ps[j], s.addr, s.port); }
    }
  }

  /**
   * The automatic port of a wildcard PCB keeps matches unique exactly when no other open PCB has it, on any address:
   * udp_sendto looks only at the address of the outgoing interface.
   */
  lemma AutomaticPortIff(t: Table, s: Step)
    requires Conserved(t) && AtMostOne(t.pcbs) && s.PortStep? && s.port != 0 && Enabled(t, s)
    requires t.pcbs[s.at].local.addr == IP_ADDR_ANY
    ensures AtMostOne(Next(t, s).pcbs) <==>
            forall j :: 0 <= j < |t.pcbs| && j != s.at && t.pcbs[j].state.Open? ==> t.pcbs[j].local.port != s.port
  {
    var ps, qs := t.pcbs, Next(t, s).pcbs;
    AtMostOneIff(ps);
    AtMostOneIff(qs);
    if Told(qs) {
      forall j | 0 <= j < |ps| && j != s.at && ps[j].state.Open? ensures ps[j].local.port != s.port {
        assert if j < s.at then ToldApart(qs[j], qs[s.at]) else ToldApart(qs[s.at], qs[j]);
      }
    } else {
      var i, j :| 0 <= i < j < |qs| && !ToldApart(qs[i], qs[j]);
      assert i == s.at || j == s.at;
    }
  }

  /**
   * With two addresses two PCBs can match: one bound to 10.0.0.1 and the first candidate port, and a wildcard PCB that
   * sends over the interface 10.0.1.1.
   */
  lemma TwoAddressesCollide()
    ensures var steps := [OpenStep(0), BindStep(0, Endpoint(0x0100_000a, Swap16(49152))), OpenStep(1),
                          PortStep(1, 0x0101_000a, Swap16(49152))];
            IsRun(NewTable(), steps) && !AtMostOne(Run(NewTable(), steps).pcbs)
  {
    var port := Swap16(49152);
    var bound := Endpoint(0x0100_000a, port);
    var s0, s1, s2, s3 := OpenStep(0), BindStep(0, bound), OpenStep(1), PortStep(1, 0x0101_000a, port);
    assert port == 192;
    var t1 := Next(NewTable(), s0);
    var t2 := Next(t1, s1);
    assert t2.pcbs[0] == Pcb(Open, bound, []) && t2.pcbs[1] == NEW_PCB;
    var t3 := Next(t2, s2);
    assert t3.pcbs[0] == Pcb(Open, bound, []) && t3.pcbs[1] == Pcb(Open, ANY_ENDPOINT, []);
    assert Enabled(t3, s3);
    var t4 := Next(t3, s3);
    assert Matches(t4.pcbs[0], bound.addr, port) && Matches(t4.pcbs[1], bound.addr, port);
    hide Enabled, Next;
    RunOne(t3, s3, []);
    RunOne(t2, s2, [s3]);
    RunOne(t1, s1, [s2, s3]);
    RunOne(NewTable(), s0, [s1, s2, s3]);
  }

  lemma RunOne(t: Table, s: Step, rest: seq<Step>)
    requires Enabled(t, s) && IsRun(Next(t, s), rest)
    ensures IsRun(t, [s] + rest) && Run(t, [s] + rest) == Run(Next(t, s), rest)
  {
    assert ([s] + rest)[1..] == rest;
  }

  // ---- The automatic port ----

  /** The candidates are distinct ports in either byte order. */
  lemma SwapInjective(p: u16, q: u16)
    requires Swap16(p) == Swap16(q)
    ensures p == q
  {
  }

  /** The slots that block the first `k` candidates are as many as the candidates. */
  lemma {:induction false} Blockers(ps: seq<Pcb>, addr: u32, self: nat, k: nat) returns (used: set<nat>)
    requires self < |ps| && ps[self].local.port == 0 && k <= SOURCE_PORT_MAX - SOURCE_PORT_MIN + 1
    requires forall p :: SOURCE_PORT_MIN <= p < SOURCE_PORT_MIN + k ==> !Selects(ps, addr, Swap16(p), None)
    ensures |used| == k
    ensures forall j :: j in used ==>
              j < |ps| && j != self && exists p: u16 :: p < SOURCE_PORT_MIN + k && Swap16(p) == ps[j].local.port
  {
    if k == 0 {
      return {};
    }
    var before := Blockers(ps, addr, self, k - 1);
    var p: u16 := SOURCE_PORT_MIN + k - 1;
    var j: nat :| j < |ps| && Matches(ps[j], addr, Swap16(p));
    SwapTwice(p);
    if j in before {
      var q: u16 :| q < p && Swap16(q) == ps[j].local.port;
      SwapInjective(p, q);
    }
    assert j != self by { assert Swap16(0) == 0; }
    used := before + {j};
  }

  lemma {:induction false} Below(used: set<nat>, n: nat)
    requires forall j :: j in used ==> j < n
    ensures |used| <= n
  {
    if n == 0 {
      assert used == {};
    } else {
      var rest := used - {n - 1};
      Below(rest, n - 1);
      assert |used| <= |rest| + 1 by { assert used <= rest + {n - 1}; Larger(used, rest + {n - 1}); }
    }
  }

  lemma {:induction false} Larger(a: set<nat>, b: set<nat>)
    requires a <= b
    ensures |a| <= |b|
  {
    if a == {} {
    } else {
      var x :| x in a;
      Larger(a - {x}, b - {x});
    }
  }

  /** One of the first sixteen candidates is free, whatever the table holds. */
  lemma SomePortIsFree(ps: seq<Pcb>, addr: u32, self: nat)
    requires |ps| == PCB_SIZE && self < |ps| && ps[self].local.port == 0
    ensures exists p :: SOURCE_PORT_MIN <= p < SOURCE_PORT_MIN + PCB_SIZE && Selects(ps, addr, Swap16(p), None)
  {
    if forall p :: SOURCE_PORT_MIN <= p < SOURCE_PORT_MIN + PCB_SIZE ==> !Selects(ps, addr, Swap16(p), None) {
      var used := Blockers(ps, addr, self, PCB_SIZE);
      assert |used + {self}| == |used| + 1;
      Below(used + {self}, PCB_SIZE);
    }
  }

  // ---- The table in place ----

  class Host {
    const pcbs: array<Pcb>
    ghost var Arrived: seq<seq<Entry>>
    ghost var Taken: seq<seq<Entry>>

    ghost function View(): Table
      reads this, pcbs
    {
      Table(pcbs[..], Arrived, Taken)
    }

    ghost predicate Valid()
      reads this, pcbs
    {
      pcbs.Length == PCB_SIZE && Conserved(View())
    }

    constructor ()
      ensures Valid() && fresh(pcbs) && View() == NewTable()
    {
      pcbs := new Pcb[16](_ => NEW_PCB);
      Arrived, Taken := seq(PCB_SIZE, _ => []), seq(PCB_SIZE, _ => []);
      new;
      assert pcbs[..] == NewTable().pcbs;
    }

    /** udp_pcb_select. */
    method Select(a: u32, port: u16) returns (r: Option<nat>)
      ensures Selects(pcbs[..], a, port, r)
    {
      for i := 0 to pcbs.Length
        invariant forall j :: 0 <= j < i ==> !Matches(pcbs[j], a, port)
      {
        if pcbs[i].state.Open? {
          if (pcbs[i].local.addr == IP_ADDR_ANY || a == IP_ADDR_ANY || pcbs[i].local.addr == a)
             && pcbs[i].local.port == port {
            return Some(i);
          }
        }
      }
      return None;
    }

    /** udp_open: the first free slot, or -1 when there is none. */
    method OpenPcb() returns (id: int)
      requires Valid()
      modifies this, pcbs
      ensures Valid()
      ensures id == -1 ==> View() == old(View()) && forall j :: 0 <= j < PCB_SIZE ==> !pcbs[j].state.Free?
      ensures id != -1 ==>
                && 0 <= id && Enabled(old(View()), OpenStep(id))
                && View() == Next(old(View()), OpenStep(id))
    {
      for i := 0 to pcbs.Length
        invariant Valid() && View() == old(View())
        invariant forall j :: 0 <= j < i ==> !pcbs[j].state.Free?
      {
        if pcbs[i].state.Free? {
          pcbs[i] := pcbs[i].(state := Open);
          Arrived, Taken := Arrived[i := []], Taken[i := []];
          StepConserves(old(View()), OpenStep(i));
          return i;
        }
      }
      return -1;
    }

    /** udp_pcb_get. */
    predicate Known(id: int)
      requires pcbs.Length == PCB_SIZE
      reads pcbs
    {
      0 <= id < pcbs.Length && pcbs[id].state.Open?
    }

    /** udp_close. */
    method ClosePcb(id: int, destroyed: bool) returns (r: int)
      requires Valid()
      modifies this, pcbs
      ensures Valid()
      ensures r == if old(Known(id)) then 0 else -1
      ensures View() == if old(Known(id)) then Next(old(View()), CloseStep(id, destroyed)) else old(View())
    {
      if !Known(id) {
        return -1;
      }
      StepConserves(View(), CloseStep(id, destroyed));
      pcbs[id] := Release(pcbs[id], destroyed);
      return 0;
    }

    /** udp_bind: refused exactly when the PCB is not open or an open PCB matches the endpoint. */
    method Bind(id: int, local: Endpoint) returns (r: int)
      requires Valid()
      modifies this, pcbs
      ensures Valid()
      ensures r == 0 <==>
              && old(Known(id))
              && forall j :: 0 <= j < PCB_SIZE ==> !Matches(old(pcbs[j]), local.addr, local.port)
      ensures r != 0 ==> r == -1 && View() == old(View())
      ensures r == 0 ==> View() == Next(old(View()), BindStep(id, local))
    {
      if !Known(id) {
        return -1;
      }
      var duplicated := Select(local.addr, local.port);
      if duplicated.Some? {
        assert Matches(View().pcbs[duplicated.value], local.addr, local.port);
        return -1;
      }
      assert forall j :: 0 <= j < PCB_SIZE ==> !Matches(View().pcbs[j], local.addr, local.port);
      StepConserves(View(), BindStep(id, local));
      pcbs[id] := pcbs[id].(local := local);
      return 0;
    }

    /**
     * The part of udp_sendto before udp_output: the local endpoint of the datagram. `iface` is the address of the
     * interface that leads to the destination, if one does. The port search never fails and never goes beyond its first
     * sixteen candidates.
     */
    method ChooseLocal(id: int, iface: Option<u32>) returns (local: Option<Endpoint>, ghost tried: nat)
      requires Valid()
      modifies this, pcbs
      ensures Valid()
      ensures local.Some? <==> old(Known(id)) && (old(pcbs[id]).local.addr == IP_ADDR_ANY ==> iface.Some?)
      ensures local.Some? ==>
                && local.value == Endpoint(if old(pcbs[id]).local.addr == IP_ADDR_ANY then iface.value
                                           else old(pcbs[id]).local.addr, pcbs[id].local.port)
                && (old(pcbs[id]).local.port != 0 ==> View() == old(View()))
                && (old(pcbs[id]).local.port == 0 ==>
                      && tried < 16
                      && local.value.port == Swap16(SOURCE_PORT_MIN + tried)
                      && Enabled(old(View()), PortStep(id, local.value.addr, local.value.port))
                      && View() == Next(old(View()), PortStep(id, local.value.addr, local.value.port))
                      && forall p :: SOURCE_PORT_MIN <= p < SOURCE_PORT_MIN + tried ==>
                           !Selects(old(View()).pcbs, local.value.addr, Swap16(p), None))
      ensures local.None? ==> View() == old(View())
    {
      tried := 0;
      if !Known(id) {
        return None, 0;
      }
      var a := pcbs[id].local.addr;
      if a == IP_ADDR_ANY {
        if iface.None? {
          return None, 0;
        }
        a := iface.value;
      }
      if pcbs[id].local.port == 0 {
        tried := FindPort(id, a);
      }
      return Some(Endpoint(a, pcbs[id].local.port)), tried;
    }

    /** The search loop of udp_sendto. */
    method FindPort(id: nat, a: u32) returns (ghost tried: nat)
      requires Valid() && Known(id) && pcbs[id].local.port == 0
      modifies this, pcbs
      ensures Valid() && tried < 16
      ensures Enabled(old(View()), PortStep(id, a, Swap16(SOURCE_PORT_MIN + tried)))
      ensures View() == Next(old(View()), PortStep(id, a, Swap16(SOURCE_PORT_MIN + tried)))
      ensures forall p :: SOURCE_PORT_MIN <= p < SOURCE_PORT_MIN + tried ==>
                !Selects(old(View()).pcbs, a, Swap16(p), None)
    {
      SomePortIsFree(pcbs[..], a, id);
      var p := SOURCE_PORT_MIN;
      while p <= SOURCE_PORT_MAX
        invariant SOURCE_PORT_MIN <= p < SOURCE_PORT_MIN + 16 && View() == old(View())
        invariant forall q :: SOURCE_PORT_MIN <= q < p ==> !Selects(pcbs[..], a, Swap16(q), None)
        decreases SOURCE_PORT_MAX - p
      {
        var taken := Select(a, Swap16(p));
        if taken.None? {
          StepConserves(View(), PortStep(id, a, Swap16(p)));
          pcbs[id] := pcbs[id].(local := pcbs[id].local.(port := Swap16(p)));
          return p - SOURCE_PORT_MIN;
        }
        assert Matches(pcbs[..][taken.value], a, Swap16(p));
        p := p + 1;
      }
    }

    /** udp_input after its checks: the datagram joins the queue of the PCB that matches, if one does. */
    method Input(dst: u32, port: u16, entry: Entry) returns (r: Option<nat>)
      requires Valid()
      modifies this, pcbs
      ensures Valid() && Selects(old(View()).pcbs, dst, port, r)
      ensures View() ==
              if r.None? then old(View()) else Next(old(View()), InputStep(r.value, dst, port, entry))
    {
      r := Select(dst, port);
      if r.Some? {
        var i := r.value;
        StepConserves(View(), InputStep(i, dst, port, entry));
        pcbs[i] := pcbs[i].(queue := pcbs[i].queue + [entry]);
        Arrived := Arrived[i := Arrived[i] + [entry]];
      }
    }

    /**
     * One pass of udp_recvfrom's loop, in any state of the PCB: the oldest datagram, truncated to the caller's buffer,
     * or nothing when the caller has to sleep.
     */
    method Receive(id: nat, size: nat) returns (r: Option<Entry>)
      requires Valid() && id < PCB_SIZE
      modifies this, pcbs
      ensures Valid()
      ensures r.None? <==> old(pcbs[id]).queue == []
      ensures r.None? ==> View() == old(View())
      ensures r.Some? ==>
                && View() == Next(old(View()), TakeStep(id))
                && var e := old(pcbs[id]).queue[0];
                   r.value == Entry(e.foreign, e.data[..Min(size, |e.data|)])
    {
      if pcbs[id].queue == [] {
        return None;
      }
      var entry := pcbs[id].queue[0];
      StepConserves(View(), TakeStep(id));
      pcbs[id] := pcbs[id].(queue := pcbs[id].queue[1..]);
      Taken := Taken[id := Taken[id] + [entry]];
      var len := Min(size, |entry.data|);
      return Some(Entry(entry.foreign, entry.data[..len]));
    }
  
    /**
     * What udp_recvfrom does when its sleep returns, `interrupted` if with an error: give up, finish a close that was
     * waiting for this sleeper, or try again.
     */
    method AfterSleep(id: nat, interrupted: bool, destroyed: bool) returns (again: bool)
      requires Valid() && id < PCB_SIZE
      modifies this, pcbs
      ensures Valid()
      ensures again <==> !interrupted && !old(pcbs[id]).state.Closing?
      ensures View() == if !interrupted && old(pcbs[id]).state.Closing?
                        then Next(old(View()), CloseStep(id, destroyed)) else old(View())
    {
      if interrupted {
        return false;
      }
      if pcbs[id].state.Closing? {
        StepConserves(View(), CloseStep(id, destroyed));
        pcbs[id] := Release(pcbs[id], destroyed);
        return false;
      }
      return true;
    }
  }
}
