/**
 ip_output from its route to its frame: the route list, the ARP cache and the Ethernet device together. The cache is one
 that some interleaving of ARP steps has produced.
 */
module Output {
  import opened Base
  import opened Time
  import opened Wire
  import opened Frames
  import Arp
  import Route

  // ---- What the cache answers ----

  /** The hardware address that arp_resolve finds, if it finds one. */
  function Resolved(cs: seq<Arp.Cache>, pa: u32): Option<HwAddr> {
    if cs == [] then None
    else if Arp.Holds(cs[0], pa) then if cs[0].state == Arp.INCOMPLETE then None else Some(cs[0].ha)
    else Resolved(cs[1..], pa)
  }

  lemma {:induction false} ResolvedIs(cs: seq<Arp.Cache>, pa: u32, r: Option<nat>)
    requires Arp.Selects(cs, pa, r)
    ensures r.None? ==> Resolved(cs, pa) == None
    ensures r.Some? ==> Resolved(cs, pa) == if cs[r.value].state == Arp.INCOMPLETE then None else Some(cs[r.value].ha)
  {
    if cs == [] {
    } else if Arp.Holds(cs[0], pa) {
      assert r == Some(0);
    } else {
      assert Arp.Selects(cs[1..], pa, if r.None? then None else Some(r.value - 1));
      ResolvedIs(cs[1..], pa, if r.None? then None else Some(r.value - 1));
    }
  }

  lemma {:induction false} SomeSelection(cs: seq<Arp.Cache>, pa: u32) returns (r: Option<nat>)
    ensures Arp.Selects(cs, pa, r)
  {
    if cs == [] {
      return None;
    }
    if Arp.Holds(cs[0], pa) {
      return Some(0);
    }
    var rest := SomeSelection(cs[1..], pa);
    r := if rest.None? then None else Some(rest.value + 1);
    forall j | 0 <= j < |cs| && (r.Some? ==> j < r.value) ensures !Arp.Holds(cs[j], pa) {
      assert j > 0 ==> cs[j] == cs[1..][j - 1];
    }
  }

  /** In every interleaving, an address resolves if and only if an entry holds it, and then to what was heard last. */
  lemma ResolvedIffHeld(steps: seq<Arp.Step>, pa: u32)
    requires Arp.IsRun(Arp.Empty(), steps)
    ensures var a := Arp.Run(Arp.Empty(), steps);
            && (Resolved(a.caches, pa).Some? <==> exists i :: 0 <= i < |a.caches| && Arp.Holds(a.caches[i], pa))
            && (Resolved(a.caches, pa).Some? ==> pa in a.heard && Resolved(a.caches, pa).value == a.heard[pa])
  {
    var a := Arp.Run(Arp.Empty(), steps);
    var r := SomeSelection(a.caches, pa);
    ResolvedIs(a.caches, pa, r);
    Arp.FoundIsLastHeard(steps, pa, r);
  }

  // ---- ip_output ----

  /** What ip_output returns, and the IP frame that was handed to the driver, if any. */
  datatype Transmission = Transmission(ret: int, frame: Option<seq<byte>>)

  predicate Ethernet(route: Option<Route.Route>, ifaces: seq<Iface>) {
    route.Some? ==> route.value.iface < |ifaces| && ifaces[route.value.iface].mtu <= 1500
  }

  function Hop(route: Route.Route, dst: u32): u32 { if route.nexthop != IP_ADDR_ANY then route.nexthop else dst }

  /** ip_output, ip_output_device and net_device_output on Ethernet devices that are up and transmit. */
  function IpSend(route: Option<Route.Route>, ifaces: seq<Iface>, caches: seq<Arp.Cache>, protocol: byte,
                  data: seq<byte>, src: u32, dst: u32, id: u16): Transmission
    requires Ethernet(route, ifaces)
  {
    var iface := if route.None? then None else Some(ifaces[route.value.iface]);
    match IpOutput(iface, protocol, data, src, dst, id)
    case None => Transmission(-1, None)
    case Some(ip) =>
      var dev, hop := iface.value, Hop(route.value, dst);
      if hop == dev.broadcast || hop == IP_ADDR_BROADCAST then
        Transmission(|data|, Some(EtherBytes(HW_BROADCAST, dev.hwaddr, TYPE_IP, ip)))
      else
        match Resolved(caches, hop)
        case Some(ha) => Transmission(|data|, Some(EtherBytes(ha, dev.hwaddr, TYPE_IP, ip)))
        case None => Transmission(|data|, None)  // arp_resolve's answer is 0, not -1
  }

  /**
   * The datagram may leave: there is a route, the source address is the interface's or unspecified, no broadcast lacks
   * a source address, and the datagram fits the device.
   */
  predicate MayLeave(route: Option<Route.Route>, ifaces: seq<Iface>, data: seq<byte>, src: u32, dst: u32)
    requires Ethernet(route, ifaces)
  {
    && route.Some? && !(src == IP_ADDR_ANY && dst == IP_ADDR_BROADCAST)
    && (src == IP_ADDR_ANY || src == ifaces[route.value.iface].unicast)
    && 20 + |data| <= ifaces[route.value.iface].mtu
  }

  predicate HopIsUnicast(route: Route.Route, ifaces: seq<Iface>, dst: u32)
    requires route.iface < |ifaces|
  {
    Hop(route, dst) != ifaces[route.iface].broadcast && Hop(route, dst) != IP_ADDR_BROADCAST
  }

  /**
   * Whatever ARP has done so far: ip_output returns the length of the data if and only if the datagram may leave. It
   * does so with nothing sent if and only if, moreover, the next hop is a unicast address that no cache entry holds. A
   * frame to a unicast hop goes to the hardware address heard last for that hop.
   */
  lemma LengthWithoutFrameIff(steps: seq<Arp.Step>, route: Option<Route.Route>, ifaces: seq<Iface>, protocol: byte,
                              data: seq<byte>, src: u32, dst: u32, id: u16)
    requires Arp.IsRun(Arp.Empty(), steps) && Ethernet(route, ifaces)
    ensures var a := Arp.Run(Arp.Empty(), steps);
            var t := IpSend(route, ifaces, a.caches, protocol, data, src, dst, id);
            && (t.ret == |data| <==> MayLeave(route, ifaces, data, src, dst))
            && (t.ret != |data| ==> t == Transmission(-1, None))
            && (MayLeave(route, ifaces, data, src, dst) ==>
                  var dev := ifaces[route.value.iface];
                  var hop := if route.value.nexthop == 0 then dst else route.value.nexthop;
                  var unicast := hop != dev.broadcast && hop != 0xffff_ffff;
                  && (t.frame.None? <==> unicast && forall i :: 0 <= i < |a.caches| ==> !Arp.Holds(a.caches[i], hop))
                  && (t.frame.Some? && unicast ==> hop in a.heard && t.frame.value[..6] == a.heard[hop])
                  && (t.frame.Some? && !unicast ==> t.frame.value[..6] == [255, 255, 255, 255, 255, 255])
                  && (t.frame.Some? ==> t.frame.value[6..12] == dev.hwaddr))
  {
    if MayLeave(route, ifaces, data, src, dst) {
      var a := Arp.Run(Arp.Empty(), steps);
      var hop := Hop(route.value, dst);
      ResolvedIffHeld(steps, hop);
      hide Resolved, IpBytes, Arp.Run, Arp.IsRun;
      var dev := ifaces[route.value.iface];
      var ip := IpOutput(Some(dev), protocol, data, src, dst, id).value;
      if Resolved(a.caches, hop).Some? { EtherFormat(Resolved(a.caches, hop).value, dev.hwaddr, TYPE_IP, ip); }
      EtherFormat(HW_BROADCAST, dev.hwaddr, TYPE_IP, ip);
      hide EtherBytes;
    }
  }

  /** The first datagram of 10.0.0.1 to its neighbour 10.0.0.2 is lost, and reported as sent: nothing was heard yet. */
  lemma FirstDatagramIsLost(data: seq<byte>, id: u16, hw: HwAddr)
    requires |data| <= 1480
    ensures var ifaces := [Iface(0x0100_000a, 0x0000_000a, 1500, hw)];
            var route := Some(Route.Route(0x0000_000a, 0x0000_00ff, IP_ADDR_ANY, 0));
            Route.Matches(route.value, 0x0200_000a) &&
            IpSend(route, ifaces, Arp.Empty().caches, PROTOCOL_UDP, data, 0x0100_000a, 0x0200_000a, id) ==
            Transmission(|data|, None)
  {
    var ifaces := [Iface(0x0100_000a, 0x0000_000a, 1500, hw)];
    var route := Some(Route.Route(0x0000_000a, 0x0000_00ff, IP_ADDR_ANY, 0));
    assert Route.Matches(route.value, 0x0200_000a) by { MaskedNeighbour(); }
    hide Route.And;
    assert Arp.Run(Arp.Empty(), []) == Arp.Empty();
    LengthWithoutFrameIff([], route, ifaces, PROTOCOL_UDP, data, 0x0100_000a, 0x0200_000a, id);
  }

  lemma MaskedNeighbour()
    ensures Route.And(0x0200_000a, 0x0000_00ff) == 0x0000_000a
  {
    Route.Pow8();
    Route.AndSplit(0x0002_0000, 0, 0x0a, 0xff, 8);
    Route.AndZero(0x0002_0000);
    Route.AndOnes(0x0a, 8);
  }

  /**
   * Once the receiver's hardware address is the one heard last, a datagram with the interface's own source address to
   * that neighbour arrives as it was sent.
   */
  lemma HeardNeighbourGetsIt(steps: seq<Arp.Step>, route: Route.Route, ifaces: seq<Iface>, d: Datagram, id: u16,
                             receiver: Iface)
    requires Arp.IsRun(Arp.Empty(), steps) && Ethernet(Some(route), ifaces) && |d.data| <= PAYLOAD_MAX - 8
    requires d.src.addr == ifaces[route.iface].unicast && d.dst.addr == receiver.unicast
    requires Hop(route, d.dst.addr) == d.dst.addr && HopIsUnicast(route, ifaces, d.dst.addr)
    requires var a := Arp.Run(Arp.Empty(), steps);
             && (exists i :: 0 <= i < |a.caches| && Arp.Holds(a.caches[i], d.dst.addr))
             && d.dst.addr in a.heard && a.heard[d.dst.addr] == receiver.hwaddr
    requires MayLeave(Some(route), ifaces, UdpBytes(d), d.src.addr, d.dst.addr)
    ensures var t := IpSend(Some(route), ifaces, Arp.Run(Arp.Empty(), steps).caches, PROTOCOL_UDP, UdpBytes(d),
                            d.src.addr, d.dst.addr, id);
            t.frame.Some? && Receive(t.frame.value, receiver) == GotUdp(d)
  {
    hide Arp.Run, Arp.IsRun, UdpBytes, EtherBytes, IpBytes, Receive, Resolved;
    ResolvedIffHeld(steps, d.dst.addr);
    UdpEndToEnd(d, id, ifaces[route.iface], receiver);
  }

  // ---- The host in place ----

  class Host {
    const routes: Route.Routes
    const arp: Arp.Table
    const ifaces: seq<Iface>
    var frames: seq<seq<byte>>  // the IP frames handed to the driver
    var requests: seq<u32>      // the addresses asked for by ARP

    ghost predicate Valid()
      reads routes, arp, arp.caches
    {
      && routes.Valid() && arp.Valid()
      && forall r :: r in routes.Added ==> Ethernet(Some(r), ifaces)
    }

    constructor (ifaces: seq<Iface>)
      ensures Valid() && this.ifaces == ifaces && frames == [] && requests == []
      ensures routes.Added == [] && arp.View() == Arp.Empty()
      ensures fresh(routes) && fresh(arp) && fresh(arp.caches)
    {
      routes := new Route.Routes();
      arp := new Arp.Table();
      this.ifaces := ifaces;
      frames, requests := [], [];
    }

    /** ip_output: looks the route up, asks the cache, and sends or asks the network. */
    method Send(protocol: byte, data: seq<byte>, src: u32, dst: u32, id: u16, now: Timeval)
      returns (ret: int, ghost at: Option<nat>)
      requires Valid() && Normal(now)
      modifies this, arp.caches
      ensures Valid() && Route.Finds(routes.List(), dst, at)
      ensures var route := if at.None? then None else Some(routes.List()[at.value]);
              && Ethernet(route, ifaces)
              && var t := IpSend(route, ifaces, old(arp.caches[..]), protocol, data, src, dst, id);
                 && ret == t.ret
                 && frames == old(frames) + (if t.frame.Some? then [t.frame.value] else [])
                 && requests == old(requests) + (if t.ret != -1 && t.frame.None? then [Hop(route.value, dst)] else [])
    {
      hide IpBytes, EtherBytes, Resolved, Arp.Inv, Route.Finds;
      ret := -1;
      var route;
      route, at := routes.Lookup(dst);
      if src == IP_ADDR_ANY && dst == IP_ADDR_BROADCAST {
        return;
      }
      if route.None? {
        return;
      }
      var dev := ifaces[route.value.iface];
      if src != IP_ADDR_ANY && src != dev.unicast {
        return;
      }
      var nexthop := if route.value.nexthop != IP_ADDR_ANY then route.value.nexthop else dst;
      if dev.mtu < 20 + |data| {
        return;
      }
      var datagram := IpOutputCore(protocol, data, dev.unicast, dst, id, 0);
      ret := |data|;
      SendVia(dev, datagram, nexthop, now);
    }

    /** ip_output_device on an Ethernet device. */
    method SendVia(dev: Iface, datagram: seq<byte>, hop: u32, now: Timeval)
      requires arp.Valid() && Normal(now) && |datagram| <= 1500
      modifies this, arp.caches
      ensures arp.Valid()
      ensures var ha := if hop == dev.broadcast || hop == IP_ADDR_BROADCAST then Some(HW_BROADCAST)
                        else Resolved(old(arp.caches[..]), hop);
              && frames == old(frames) +
                           (if ha.Some? then [EtherBytes(ha.value, dev.hwaddr, TYPE_IP, datagram)] else [])
              && requests == old(requests) + (if ha.None? then [hop] else [])
    {
      hide EtherBytes;
      var ha := HW_BROADCAST;
      if hop != dev.broadcast && hop != IP_ADDR_BROADCAST {
        ghost var cs := arp.caches[..];
        var r, found, step := arp.Resolve(hop, now);
        ResolvedIs(cs, hop, if step.ResolveHit? then Some(step.at) else None);
        if r != Arp.RESOLVE_FOUND {
          requests := requests + [hop];
          return;
        }
        ha := found.value;
      }
      var frame := EtherTransmit(ha, dev.hwaddr, TYPE_IP, datagram);
      frames := frames + [frame];
    }
  }
}
