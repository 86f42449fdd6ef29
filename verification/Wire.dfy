/**
 Datagrams and segments as octets: udp.c, tcp.c, ip.c and ether.c on the way out and on the way in. A length that the
 source would compute below zero is `Wild`.
 */
module Wire {
  import opened Base
  import opened Checksum
  import opened Tcp
  import TcpPackets
  import TcpRun
  import TcpSend

  const PROTOCOL_TCP: byte := 6
  const PROTOCOL_UDP: byte := 17
  const TYPE_IP: u16 := 0x0800
  const PAYLOAD_MAX: int := 65515

  const HW_BROADCAST: HwAddr := [255, 255, 255, 255, 255, 255]

  /** An interface and its device. */
  datatype Iface = Iface(unicast: u32, broadcast: u32, mtu: u16, hwaddr: HwAddr)

  // ---- Pseudo header ----

  function Pseudo(src: u32, dst: u32, protocol: byte, len: u16): (b: seq<byte>)
    ensures |b| == 12
  {
    Store32(src) + (Store32(dst) + [0, protocol] + Store16(Swap16(len)))
  }

  function PseudoSum(src: u32, dst: u32, protocol: byte, len: u16): u16 {
    65535 - Cksum(Pseudo(src, dst, protocol, len), 0)
  }

  // ---- UDP ----

  datatype Datagram = Datagram(src: Endpoint, dst: Endpoint, data: seq<byte>)

  /** The UDP header up to its checksum. */
  function UdpHead(src: Endpoint, dst: Endpoint, len: u16): (b: seq<byte>)
    ensures |b| == 6
  {
    Store16(src.port) + Store16(dst.port) + Store16(Swap16(len))
  }

  /** udp_output, up to ip_output. */
  function UdpBytes(d: Datagram): (b: seq<byte>)
    requires |d.data| <= PAYLOAD_MAX - 8
    ensures |b| == 8 + |d.data|
  {
    var len: u16 := 8 + |d.data|;
    var head := UdpHead(d.src, d.dst, len);
    head + Store16(Cksum(head + Store16(0) + d.data, PseudoSum(d.src.addr, d.dst.addr, PROTOCOL_UDP, len))) + d.data
  }

  /** udp_input, up to udp_pcb_select. */
  function UdpParse(b: seq<byte>, src: u32, dst: u32): Option<Datagram>
    requires |b| < TWO16
  {
    if |b| < 8 then None
    else if |b| != Swap16(Load16(b[4..6])) then None
    else if Cksum(b, PseudoSum(src, dst, PROTOCOL_UDP, |b|)) != 0 then None
    else Some(Datagram(Endpoint(src, Load16(b[..2])), Endpoint(dst, Load16(b[2..4])), b[8..]))
  }

  // ---- TCP ----

  function Bit(on: bool, value: byte): byte { if on then value else 0 }

  function FlagByte(f: Flags): byte {
    Bit(f.fin, 1) + Bit(f.syn, 2) + Bit(f.rst, 4) + Bit(f.psh, 8) + Bit(f.ack, 16) + Bit(f.urg, 32)
  }

  function FlagsOf(b: byte): Flags {
    Flags(b % 2 == 1, b / 2 % 2 == 1, b / 4 % 2 == 1, b / 8 % 2 == 1, b / 16 % 2 == 1, b / 32 % 2 == 1)
  }

  /** The TCP header up to its checksum. */
  function TcpHead(p: Packet): (b: seq<byte>)
    ensures |b| == 16
  {
    Store16(p.src.port) + Store16(p.dst.port) + Store32(Swap32(p.seg.seqno)) + Store32(Swap32(p.seg.ack))
    + [80, FlagByte(p.seg.flags)] + Store16(Swap16(p.seg.wnd))
  }

  /** tcp_output_segment, up to ip_output. */
  function TcpBytes(p: Packet): (b: seq<byte>)
    requires |p.seg.text| <= PAYLOAD_MAX - 20
    ensures |b| == 20 + |p.seg.text|
  {
    var psum := PseudoSum(p.src.addr, p.dst.addr, PROTOCOL_TCP, 20 + |p.seg.text|);
    var rest := [0, 0] + p.seg.text;
    TcpHead(p) + Store16(Cksum(TcpHead(p) + Store16(0) + rest, psum)) + rest
  }

  datatype Parsed = Dropped | Wild | GotTcp(packet: Packet) | GotUdp(datagram: Datagram)

  /** tcp_input, up to tcp_segment_arrives. */
  function TcpParse(b: seq<byte>, src: u32, dst: u32, iface: Iface): Parsed
    requires |b| < TWO16
  {
    if |b| < 20 then Dropped
    else if Cksum(b, PseudoSum(src, dst, PROTOCOL_TCP, |b|)) != 0 then Dropped
    else if src == IP_ADDR_BROADCAST || src == iface.broadcast || dst == IP_ADDR_BROADCAST || dst == iface.broadcast
    then Dropped
    else
      var hlen := b[12] / 16 * 4;
      if |b| < hlen then Wild
      else
        GotTcp(Packet(Endpoint(src, Load16(b[..2])), Endpoint(dst, Load16(b[2..4])),
                      Segment(Swap32(Load32(b[4..8])), Swap32(Load32(b[8..12])), FlagsOf(b[13]),
                              Swap16(Load16(b[14..16])), b[hlen..])))
  }

  // ---- IP ----

  /** The IP header up to its checksum. */
  function IpHead(protocol: byte, total: u16, id: u16, offset: u16): (b: seq<byte>)
    ensures |b| == 10
  {
    [0x45, 0] + Store16(Swap16(total)) + Store16(Swap16(id)) + Store16(Swap16(offset)) + [255, protocol]
  }

  /** ip_output_core, up to ip_output_device. */
  function IpBytes(protocol: byte, data: seq<byte>, src: u32, dst: u32, id: u16, offset: u16): (b: seq<byte>)
    requires |data| <= PAYLOAD_MAX
    ensures |b| == 20 + |data|
  {
    var head := IpHead(protocol, 20 + |data|, id, offset);
    var addrs := Store32(src) + Store32(dst);
    head + Store16(Cksum(head + Store16(0) + addrs, 0)) + addrs + data
  }

  /** ip_output on the route's interface. */
  function IpOutput(iface: Option<Iface>, protocol: byte, data: seq<byte>, src: u32, dst: u32, id: u16)
    : Option<seq<byte>>
  {
    if src == IP_ADDR_ANY && dst == IP_ADDR_BROADCAST then None
    else if iface.None? then None
    else if src != IP_ADDR_ANY && src != iface.value.unicast then None
    else if iface.value.mtu < 20 + |data| then None
    else Some(IpBytes(protocol, data, iface.value.unicast, dst, id, 0))
  }

  datatype IpResult = NotTaken | BadLength | Taken(protocol: byte, data: seq<byte>, src: u32, dst: u32)

  /** ip_input, up to the protocol's handler. */
  function IpParse(b: seq<byte>, iface: Iface): (r: IpResult)
    ensures r.Taken? ==> |r.data| < TWO16
  {
    if |b| < 20 then NotTaken
    else if b[0] / 16 != 4 then NotTaken
    else
      var hlen := b[0] % 16 * 4;
      var total := Swap16(Load16(b[2..4]));
      if |b| < hlen || |b| < total then NotTaken
      else if Cksum(b[..hlen], 0) != 0 then NotTaken
      else if Swap16(Load16(b[6..8])) % 0x4000 != 0 then NotTaken
      else
        var dst := Load32(b[16..20]);
        if dst != iface.unicast && dst != IP_ADDR_BROADCAST && dst != iface.broadcast then NotTaken
        else if total < hlen then BadLength
        else Taken(b[9], b[hlen..total], Load32(b[12..16]), dst)
  }

  // ---- Ethernet ----

  function Zeros(n: nat): (z: seq<byte>)
    ensures |z| == n
  {
    seq(n, _ => 0)
  }

  /** ether_transmit_helper. */
  function EtherBytes(dst: HwAddr, src: HwAddr, etype: u16, data: seq<byte>): (f: seq<byte>)
    requires |data| <= 1500
    ensures 60 <= |f| <= 1514
  {
    dst + src + Store16(Swap16(etype)) + data + Zeros(if |data| < 46 then 46 - |data| else 0)
  }

  /** ether_input_helper, up to net_input_handler: the type and the payload. */
  function EtherParse(f: seq<byte>, addr: HwAddr): Option<(u16, seq<byte>)> {
    if |f| < 14 then None
    else if f[..6] != addr && f[..6] != HW_BROADCAST then None
    else Some((Swap16(Load16(f[12..14])), f[14..]))
  }

  // ---- The whole stack ----

  /** A frame from the device up to the transport protocol's table. */
  function Receive(f: seq<byte>, iface: Iface): Parsed {
    match EtherParse(f, iface.hwaddr)
    case None => Dropped
    case Some(e) =>
      if e.0 != TYPE_IP then Dropped
      else
        match IpParse(e.1, iface)
        case NotTaken => Dropped
        case BadLength => Wild
        case Taken(protocol, data, src, dst) =>
          if protocol == PROTOCOL_TCP then TcpParse(data, src, dst, iface)
          else if protocol == PROTOCOL_UDP then
            match UdpParse(data, src, dst) {
              case None => Dropped
              case Some(d) => GotUdp(d)
            }
          else Dropped
  }

  // ---- Each layer undone ----

  lemma StoredFields(a: seq<byte>, v: u16, b: seq<byte>)
    ensures var m := a + Store16(v) + b;
            |m| == |a| + 2 + |b| && Load16(m[|a|..|a| + 2]) == v && m[..|a|] == a && m[|a| + 2..] == b
  {
    var m := a + Store16(v) + b;
    assert m[|a|..|a| + 2] == Store16(v);
    Order16(v);
  }

  lemma EtherUndone(dst: HwAddr, src: HwAddr, etype: u16, data: seq<byte>)
    requires |data| <= 1500
    ensures exists pad ::
              EtherParse(EtherBytes(dst, src, etype, data), dst) == Some((etype, data + Zeros(pad)))
  {
    var pad: nat := if |data| < 46 then 46 - |data| else 0;
    var f := EtherBytes(dst, src, etype, data);
    assert f == (dst + src) + Store16(Swap16(etype)) + (data + Zeros(pad));
    StoredFields(dst + src, Swap16(etype), data + Zeros(pad));
    Order16(etype);
    assert f[..6] == dst;
    assert EtherParse(f, dst) == Some((etype, data + Zeros(pad)));
  }

  /** Where the fields of a datagram are. */
  lemma IpFields(head: seq<byte>, sum: u16, src: u32, dst: u32, rest: seq<byte>)
    requires |head| == 10
    ensures var b := head + Store16(sum) + (Store32(src) + Store32(dst)) + rest;
            && |b| == 20 + |rest| && b[..10] == head && b[..20] == head + Store16(sum) + (Store32(src) + Store32(dst))
            && Load32(b[12..16]) == src && Load32(b[16..20]) == dst && b[20..] == rest
  {
    var b := head + Store16(sum) + (Store32(src) + Store32(dst)) + rest;
    assert b[12..16] == Store32(src);
    assert b[16..20] == Store32(dst);
    Order32(src);
    Order32(dst);
  }

  lemma IpHeadFields(protocol: byte, total: u16, id: u16)
    ensures var h := IpHead(protocol, total, id, 0);
            && h[0] == 0x45 && h[9] == protocol
            && Swap16(Load16(h[2..4])) == total && Swap16(Load16(h[6..8])) == 0
  {
    var h := IpHead(protocol, total, id, 0);
    hide Swap16;
    assert h[2..4] == Store16(Swap16(total));
    assert h[6..8] == Store16(Swap16(0));
    Stored(total);
    Stored(0);
  }

  /** Whatever follows the datagram, such as Ethernet padding, is cut off by the total length. */
  lemma IpUndone(protocol: byte, data: seq<byte>, src: u32, dst: u32, id: u16, iface: Iface, pad: nat)
    requires |data| <= PAYLOAD_MAX
    requires dst == iface.unicast || dst == IP_ADDR_BROADCAST || dst == iface.broadcast
    ensures IpParse(IpBytes(protocol, data, src, dst, id, 0) + Zeros(pad), iface) == Taken(protocol, data, src, dst)
  {
    hide Cksum, Swap16, Store16, Store32, Load16, Load32, IpHead, Zeros;
    var total: u16 := 20 + |data|;
    var head := IpHead(protocol, total, id, 0);
    var addrs := Store32(src) + Store32(dst);
    var sum := Cksum(head + Store16(0) + addrs, 0);
    var b := IpBytes(protocol, data, src, dst, id, 0) + Zeros(pad);
    assert b == head + Store16(sum) + addrs + (data + Zeros(pad));
    IpFields(head, sum, src, dst, data + Zeros(pad));
    IpHeadFields(protocol, total, id);
    VerifiesIff(head, sum, addrs, 0);
    assert b[2..4] == head[2..4] && b[6..8] == head[6..8] && b[0] == head[0] && b[9] == head[9];
    assert b[20..total] == b[20..][..|data|] == data;
  }

  lemma Stored(v: u16)
    ensures Swap16(Load16(Store16(Swap16(v)))) == v
  {
    Order16(v);
    Order16(Swap16(v));
  }

  /**
   * A datagram is taken exactly when its checksum was computed with, up to one's complement, the addresses that
   * ip_input reports.
   */
  lemma UdpUndone(d: Datagram, src: u32)
    requires |d.data| <= PAYLOAD_MAX - 8
    ensures UdpParse(UdpBytes(d), src, d.dst.addr) ==
            if SameSum(d.src.addr, src) then Some(d.(src := d.src.(addr := src))) else None
  {
    var len: u16 := 8 + |d.data|;
    var head := UdpHead(d.src, d.dst, len);
    var psum := PseudoSum(d.src.addr, d.dst.addr, PROTOCOL_UDP, len);
    var sum := Cksum(head + Store16(0) + d.data, psum);
    var b := UdpBytes(d);
    assert b == head + Store16(sum) + d.data;
    SameSumVerifies(head, d.data, d.src.addr, src, d.dst.addr, PROTOCOL_UDP, len);
    hide Cksum, Swap16, PseudoSum;
    StoredFields(head, sum, d.data);
    assert b[..2] == Store16(d.src.port);
    assert b[2..4] == Store16(d.dst.port);
    assert b[4..6] == Store16(Swap16(len));
    Stored(len);
    Order16(d.src.port);
    Order16(d.dst.port);
  }

  // ---- Which pseudo headers agree ----

  /** The halves of two addresses have the same one's complement sum. */
  predicate SameSum(a: u32, b: u32) { (a / TWO16 + a % TWO16) % 65535 == (b / TWO16 + b % TWO16) % 65535 }

  lemma AddressWords(a: u32, rest: seq<byte>)
    ensures Words(Store32(a) + rest) == a / TWO16 + a % TWO16 + Words(rest)
  {
    FieldWords([], a % TWO16, Store16(a / TWO16) + rest);
    FieldWords([], a / TWO16, rest);
    assert Store32(a) + rest == [] + Store16(a % TWO16) + (Store16(a / TWO16) + rest);
    assert Store16(a / TWO16) + rest == [] + Store16(a / TWO16) + rest;
  }

  lemma FoldAgrees(m: nat, n: nat, w: nat)
    requires w > 0
    ensures Fold(m + w) == Fold(n + w) <==> m % 65535 == n % 65535
  {
    var qm, qn, rm, rn := m / 65535, n / 65535, m % 65535, n % 65535;
    FoldMultiple(qm, rm + w);
    FoldMultiple(qn, rn + w);
    assert m + w == 65535 * qm + (rm + w) && n + w == 65535 * qn + (rn + w);
    FoldApart(rm, rn, w - 1);
  }

  lemma Wrap(m: nat, w: nat)
    requires m < 65535
    ensures var s := m + w % 65535;
            (m + w) % 65535 == if s < 65535 then s else s - 65535
  {
  }

  lemma FoldApart(m: nat, n: nat, w: nat)
    requires m < 65535 && n < 65535
    ensures (m + w) % 65535 == (n + w) % 65535 <==> m == n
  {
    var r := w % 65535;
    assert w == 65535 * (w / 65535) + r;
    Wrap(m, w);
    Wrap(n, w);
  }

  /** The words of a pseudo header are those of its source address and a positive rest. */
  lemma PseudoWords(src: u32, dst: u32, protocol: byte, len: u16) returns (w: nat)
    requires protocol > 0
    ensures w > 0 && forall a: u32 :: Words(Pseudo(a, dst, protocol, len)) == a / TWO16 + a % TWO16 + w
  {
    var rest := Store32(dst) + [0, protocol] + Store16(Swap16(len));
    w := Words(rest);
    WordsSplit(Store32(dst) + [0, protocol], Store16(Swap16(len)));
    WordsSplit(Store32(dst), [0, protocol]);
    assert Words([0, protocol]) > 0;
    forall a: u32 ensures Words(Pseudo(a, dst, protocol, len)) == a / TWO16 + a % TWO16 + w {
      AddressWords(a, rest);
    }
  }

  /** What the receiver computes over a message whose field was filled in with another source address. */
  lemma SameSumVerifies(head: seq<byte>, rest: seq<byte>, src: u32, src': u32, dst: u32, protocol: byte, len: u16)
    requires |head| % 2 == 0 && |head| + 2 + |rest| < TWO16 && protocol > 0
    ensures var sum := Cksum(head + Store16(0) + rest, PseudoSum(src, dst, protocol, len));
            Cksum(head + Store16(sum) + rest, PseudoSum(src', dst, protocol, len)) == 0 <==> SameSum(src, src')
  {
    hide Fold, Words, Cksum, PseudoSum, Pseudo, Store16;
    var sum := Cksum(head + Store16(0) + rest, PseudoSum(src, dst, protocol, len));
    var w := PseudoWords(src, dst, protocol, len);
    var h, h' := src / TWO16 + src % TWO16, src' / TWO16 + src' % TWO16;
    var body := Words(head) + Words(rest);
    FilledWords(head, 0, rest, src, dst, protocol, len);
    FilledWords(head, sum, rest, src', dst, protocol, len);
    FoldFull(h' + w + body, sum);
    FoldAgrees(h, h', w + body);
    FoldPositive(h + w + body);
  }

  lemma FoldPositive(n: nat)
    ensures n > 0 ==> Fold(n) > 0
  {
  }

  lemma FilledWords(head: seq<byte>, v: u16, rest: seq<byte>, src: u32, dst: u32, protocol: byte, len: u16)
    requires |head| % 2 == 0 && |head| + 2 + |rest| < TWO16
    ensures Cksum(head + Store16(v) + rest, PseudoSum(src, dst, protocol, len)) ==
            65535 - Fold(Words(Pseudo(src, dst, protocol, len)) + (Words(head) + v + Words(rest)))
  {
    hide Fold, Words, Cksum, Pseudo, Store16;
    var psum := Fold(Words(Pseudo(src, dst, protocol, len)));
    CksumIs(Pseudo(src, dst, protocol, len), 0);
    CksumIs(head + Store16(v) + rest, psum);
    FieldWords(head, v, rest);
    FoldAdd(Words(Pseudo(src, dst, protocol, len)), Words(head) + v + Words(rest));
  }

  lemma CksumIs(d: seq<byte>, init: u16)
    requires |d| < TWO16
    ensures Cksum(d, init) == 65535 - Fold(init + Words(d))
  {
    NoOverflow(d, init);
  }

  // ---- TCP undone ----

  lemma FlagsUndone(f: Flags)
    ensures FlagsOf(FlagByte(f)) == f
  {
    var h5 := Bit(f.urg, 1);
    var h4 := 2 * h5 + Bit(f.ack, 1);
    var h3 := 2 * h4 + Bit(f.psh, 1);
    var h2 := 2 * h3 + Bit(f.rst, 1);
    var h1 := 2 * h2 + Bit(f.syn, 1);
    var b := FlagByte(f);
    assert b == 2 * h1 + Bit(f.fin, 1);
    assert b / 2 == h1 && b / 4 == h2 && b / 8 == h3 && b / 16 == h4 && b / 32 == h5;
  }

  lemma Stored32(v: u32)
    ensures Swap32(Load32(Store32(Swap32(v)))) == v
  {
    Order32(v);
    Order32(Swap32(v));
  }

  lemma TcpHeadFields(p: Packet)
    ensures var h := TcpHead(p);
            && Load16(h[..2]) == p.src.port && Load16(h[2..4]) == p.dst.port
            && Swap32(Load32(h[4..8])) == p.seg.seqno && Swap32(Load32(h[8..12])) == p.seg.ack
            && h[12] == 80 && FlagsOf(h[13]) == p.seg.flags && Swap16(Load16(h[14..16])) == p.seg.wnd
  {
    var h := TcpHead(p);
    hide Swap16, Swap32, FlagByte, FlagsOf;
    assert h[..2] == Store16(p.src.port);
    assert h[2..4] == Store16(p.dst.port);
    assert h[4..8] == Store32(Swap32(p.seg.seqno));
    assert h[8..12] == Store32(Swap32(p.seg.ack));
    assert h[13] == FlagByte(p.seg.flags);
    assert h[14..16] == Store16(Swap16(p.seg.wnd));
    Order16(p.src.port);
    Order16(p.dst.port);
    Stored32(p.seg.seqno);
    Stored32(p.seg.ack);
    FlagsUndone(p.seg.flags);
    Stored(p.seg.wnd);
  }

  /** Neither end is a broadcast address. */
  predicate Unicast(src: u32, dst: u32, iface: Iface) {
    src != IP_ADDR_BROADCAST && src != iface.broadcast && dst != IP_ADDR_BROADCAST && dst != iface.broadcast
  }

  lemma TcpUndone(p: Packet, src: u32, iface: Iface)
    requires |p.seg.text| <= PAYLOAD_MAX - 20 && Unicast(src, p.dst.addr, iface)
    ensures TcpParse(TcpBytes(p), src, p.dst.addr, iface) ==
            if SameSum(p.src.addr, src) then GotTcp(p.(src := p.src.(addr := src))) else Dropped
  {
    hide Swap16, Swap32, Load16, Load32, Store16, TcpHead, FlagsOf, PseudoSum, SameSum, Cksum;
    var len: u16 := 20 + |p.seg.text|;
    var head := TcpHead(p);
    var psum := PseudoSum(p.src.addr, p.dst.addr, PROTOCOL_TCP, len);
    var rest := [0, 0] + p.seg.text;
    var sum := Cksum(head + Store16(0) + rest, psum);
    var b := TcpBytes(p);
    assert b == head + Store16(sum) + rest;
    SameSumVerifies(head, rest, p.src.addr, src, p.dst.addr, PROTOCOL_TCP, len);
    TcpHeadFields(p);
    assert b[..2] == head[..2] && b[2..4] == head[2..4] && b[4..8] == head[4..8] && b[8..12] == head[8..12];
    assert b[12] == head[12] && b[13] == head[13] && b[14..16] == head[14..16];
    assert b[20..] == p.seg.text;
  }

  // ---- The formats, octet by octet ----

  /** The Ethernet header: destination, source, type; then the data, padded with zeros to a frame of 60 octets. */
  lemma EtherFormat(dst: HwAddr, src: HwAddr, etype: u16, data: seq<byte>)
    requires |data| <= 1500
    ensures var f := EtherBytes(dst, src, etype, data);
            && |f| == Max(60, 14 + |data|)
            && f[..6] == dst && f[6..12] == src && f[12] == etype / 256 && f[13] == etype % 256
            && f[14..14 + |data|] == data
            && forall i :: 14 + |data| <= i < |f| ==> f[i] == 0
  {
    hide Swap16;
    Order16(etype);
  }

  /**
   * The header of section 3.1 of RFC 791: version 4 and five words, no service, the total length, the identification,
   * no flags and offset, time to live 255, the protocol, the checksum, source and destination.
   */
  lemma IpFormat(protocol: byte, data: seq<byte>, src: u32, dst: u32, id: u16)
    requires |data| <= PAYLOAD_MAX
    ensures var b := IpBytes(protocol, data, src, dst, id, 0);
            var total := 20 + |data|;
            && |b| == total
            && b[0] == 0x45 && b[1] == 0 && b[2] == total / 256 && b[3] == total % 256
            && b[4] == id / 256 && b[5] == id % 256 && b[6] == 0 && b[7] == 0 && b[8] == 255 && b[9] == protocol
            && b[12..16] == Store32(src) && b[16..20] == Store32(dst) && b[20..] == data
            && Cksum(b[..20], 0) == 0
  {
    hide Cksum, Swap16, Store32;
    var total: u16 := 20 + |data|;
    var head, addrs := IpHead(protocol, total, id, 0), Store32(src) + Store32(dst);
    var sum := Cksum(head + Store16(0) + addrs, 0);
    var b := IpBytes(protocol, data, src, dst, id, 0);
    Order16(total);
    Order16(id);
    Order16(0);
    IpHeadOctets(protocol, total, id);
    assert b[..10] == head;
    assert b[..20] == head + Store16(sum) + addrs;
    VerifiesIff(head, sum, addrs, 0);
  }

  lemma IpHeadOctets(protocol: byte, total: u16, id: u16)
    ensures IpHead(protocol, total, id, 0) ==
            [0x45, 0, total / 256, total % 256, id / 256, id % 256, 0, 0, 255, protocol]
  {
    hide Swap16;
    Order16(total);
    Order16(id);
    Order16(0);
  }

  /** The header of RFC 768: ports, length, checksum. */
  lemma UdpFormat(d: Datagram)
    requires |d.data| <= PAYLOAD_MAX - 8
    ensures var b := UdpBytes(d);
            && |b| == 8 + |d.data| && b[..2] == Store16(d.src.port) && b[2..4] == Store16(d.dst.port)
            && b[4] == |b| / 256 && b[5] == |b| % 256 && b[8..] == d.data
  {
    hide Cksum, PseudoSum, Swap16;
    Order16(8 + |d.data|);
  }

  /** Where the fields of a segment are, in the host's order. */
  lemma TcpFields(p: Packet)
    requires |p.seg.text| <= PAYLOAD_MAX - 20
    ensures var b, s := TcpBytes(p), p.seg;
            && b[..2] == Store16(p.src.port) && b[2..4] == Store16(p.dst.port)
            && b[4..8] == Store32(Swap32(s.seqno)) && b[8..12] == Store32(Swap32(s.ack))
            && b[12] == 80 && b[13] == FlagByte(s.flags)
            && [b[14], b[15]] == Store16(Swap16(s.wnd)) && b[18] == 0 && b[19] == 0 && b[20..] == s.text
  {
    hide Cksum, PseudoSum, Swap16, Swap32, FlagByte;
    var b, head := TcpBytes(p), TcpHead(p);
    assert b[..16] == head;
    assert head[4..8] == Store32(Swap32(p.seg.seqno));
    assert head[8..12] == Store32(Swap32(p.seg.ack));
    assert b[4..8] == head[4..8] && b[8..12] == head[8..12];
  }

  /**
   * The header of section 3.1 of RFC 793: ports, sequence number, acknowledgement, five words, the control bits,
   * window, checksum, no urgent pointer.
   */
  lemma TcpFormat(p: Packet)
    requires |p.seg.text| <= PAYLOAD_MAX - 20
    ensures var b, s, f := TcpBytes(p), p.seg, p.seg.flags;
            && |b| == 20 + |s.text| && b[..2] == Store16(p.src.port) && b[2..4] == Store16(p.dst.port)
            && b[4..8] == [s.seqno / TWO16 / 256, s.seqno / TWO16 % 256, s.seqno % TWO16 / 256, s.seqno % TWO16 % 256]
            && b[8..12] == [s.ack / TWO16 / 256, s.ack / TWO16 % 256, s.ack % TWO16 / 256, s.ack % TWO16 % 256]
            && b[12] == 0x50
            && (b[13] % 2 == 1 <==> f.fin) && (b[13] / 2 % 2 == 1 <==> f.syn) && (b[13] / 4 % 2 == 1 <==> f.rst)
            && (b[13] / 8 % 2 == 1 <==> f.psh) && (b[13] / 16 % 2 == 1 <==> f.ack) && (b[13] / 32 == 1 <==> f.urg)
            && b[14] == s.wnd / 256 && b[15] == s.wnd % 256 && b[18] == 0 && b[19] == 0 && b[20..] == s.text
  {
    hide Cksum, PseudoSum, Swap16, Swap32, FlagByte, Store16, Store32, TcpBytes;
    TcpFields(p);
    Order32(p.seg.seqno);
    Order32(p.seg.ack);
    Order16(p.seg.wnd);
    ControlBits(p.seg.flags);
  }

  lemma ControlBits(f: Flags)
    ensures var b := FlagByte(f);
            && b < 64
            && (b % 2 == 1 <==> f.fin) && (b / 2 % 2 == 1 <==> f.syn) && (b / 4 % 2 == 1 <==> f.rst)
            && (b / 8 % 2 == 1 <==> f.psh) && (b / 16 % 2 == 1 <==> f.ack) && (b / 32 == 1 <==> f.urg)
  {
    FlagsUndone(f);
  }

  // ---- What is accepted ----

  /** The value of octets in network order. */
  function Big16(b: seq<byte>): u16
    requires |b| == 2
  {
    var hi: int, lo: int := b[0], b[1];
    256 * hi + lo
  }

  function Big32(b: seq<byte>): u32
    requires |b| == 4
  {
    TWO16 * Big16(b[..2]) + Big16(b[2..])
  }

  lemma LoadIsBig16(b: seq<byte>)
    requires |b| == 2
    ensures Swap16(Load16(b)) == Big16(b)
  {
  }

  lemma LoadIsBig32(b: seq<byte>)
    requires |b| == 4
    ensures Swap32(Load32(b)) == Big32(b)
  {
    hide Swap16;
    var lo, hi := Load16(b[..2]), Load16(b[2..]);
    assert Load32(b) % TWO16 == lo && Load32(b) / TWO16 == hi;
    LoadIsBig16(b[..2]);
    LoadIsBig16(b[2..]);
  }

  /** A frame is taken exactly when it has a header and is addressed to this device or to everybody. */
  lemma EtherTakenIff(f: seq<byte>, addr: HwAddr)
    ensures EtherParse(f, addr).Some? <==>
              |f| >= 14 && (f[..6] == addr || f[..6] == [255, 255, 255, 255, 255, 255])
    ensures EtherParse(f, addr).Some? ==> EtherParse(f, addr).value == (Big16(f[12..14]), f[14..])
  {
    if |f| >= 14 { LoadIsBig16(f[12..14]); }
  }

  /**
   * A datagram that ip_input hands on: version 4, a header and a total length that the frame holds, a header whose
   * words have the sum 65535, neither a fragment nor followed by one, for this interface or for everybody.
   */
  predicate IpProper(b: seq<byte>, iface: Iface) {
    && |b| >= 20 && b[0] / 16 == 4 && b[0] % 16 * 4 <= |b| && Big16(b[2..4]) <= |b|
    && Fold(NetworkWords(b[..b[0] % 16 * 4])) == 65535
    && Big16(b[6..8]) % 0x4000 == 0
    && (Load32(b[16..20]) == iface.unicast || Load32(b[16..20]) == 0xffff_ffff
        || Load32(b[16..20]) == iface.broadcast)
  }

  lemma IpTakenIff(b: seq<byte>, iface: Iface)
    ensures IpParse(b, iface).NotTaken? <==> !IpProper(b, iface)
    ensures IpParse(b, iface).BadLength? <==> IpProper(b, iface) && Big16(b[2..4]) < b[0] % 16 * 4
    ensures IpParse(b, iface).Taken? ==>
              IpParse(b, iface) ==
              Taken(b[9], b[b[0] % 16 * 4..Big16(b[2..4])], Load32(b[12..16]), Load32(b[16..20]))
  {
    hide Swap16, Load16, Load32, Cksum, Fold, NetworkWords, Big16;
    if |b| >= 20 {
      LoadIsBig16(b[2..4]);
      LoadIsBig16(b[6..8]);
      var hlen := b[0] % 16 * 4;
      if hlen <= |b| { WholeVerifies(b[..hlen]); }
    }
  }

  lemma PseudoVerifies(src: u32, dst: u32, protocol: byte, b: seq<byte>)
    requires |b| < TWO16
    ensures Cksum(b, PseudoSum(src, dst, protocol, |b|)) == 0 <==>
            Fold(NetworkWords(Pseudo(src, dst, protocol, |b|) + b)) == 65535
  {
    hide Fold, NetworkWords, Cksum, Pseudo;
    VerifiesInNetworkOrder(Pseudo(src, dst, protocol, |b|), b);
  }

  /** The pseudo header of RFC 768 and RFC 793: addresses, zero, protocol, length. */
  lemma PseudoFormat(src: u32, dst: u32, protocol: byte, len: u16)
    ensures Pseudo(src, dst, protocol, len) ==
            Store32(src) + Store32(dst) + [0, protocol, len / 256, len % 256]
  {
    Order16(len);
  }

  /**
   * udp_input takes exactly the datagrams with a header, their own length, and words, with those of the pseudo header,
   * whose sum is 65535.
   */
  lemma UdpTakenIff(b: seq<byte>, src: u32, dst: u32)
    requires |b| < TWO16
    ensures UdpParse(b, src, dst).Some? <==>
              && |b| >= 8 && Big16(b[4..6]) == |b|
              && Fold(NetworkWords(Pseudo(src, dst, 17, |b|) + b)) == 65535
    ensures UdpParse(b, src, dst).Some? ==>
              UdpParse(b, src, dst).value ==
              Datagram(Endpoint(src, Load16(b[..2])), Endpoint(dst, Load16(b[2..4])), b[8..])
  {
    hide Swap16, Load16, Cksum, Fold, NetworkWords, Pseudo, PseudoSum, Big16;
    if |b| >= 8 {
      LoadIsBig16(b[4..6]);
      PseudoVerifies(src, dst, PROTOCOL_UDP, b);
    }
  }

  /** A segment that tcp_input does not drop. */
  predicate TcpProper(b: seq<byte>, src: u32, dst: u32, iface: Iface)
    requires |b| < TWO16
  {
    && |b| >= 20 && Fold(NetworkWords(Pseudo(src, dst, 6, |b|) + b)) == 65535
    && src != 0xffff_ffff && src != iface.broadcast && dst != 0xffff_ffff && dst != iface.broadcast
  }

  lemma TcpTakenIff(b: seq<byte>, src: u32, dst: u32, iface: Iface)
    requires |b| < TWO16
    ensures var r := TcpParse(b, src, dst, iface);
            && (r.Dropped? <==> !TcpProper(b, src, dst, iface))
            && (r.Wild? <==> TcpProper(b, src, dst, iface) && |b| < b[12] / 16 * 4)
            && (!r.Dropped? && !r.Wild? ==>
                  r == GotTcp(Packet(Endpoint(src, Load16(b[..2])), Endpoint(dst, Load16(b[2..4])),
                                     Segment(Big32(b[4..8]), Big32(b[8..12]), FlagsOf(b[13]), Big16(b[14..16]),
                                             b[b[12] / 16 * 4..]))))
  {
    hide Swap16, Swap32, Load16, Load32, Cksum, Fold, NetworkWords, Pseudo, PseudoSum, Big16, Big32, FlagsOf;
    if |b| >= 20 {
      PseudoVerifies(src, dst, PROTOCOL_TCP, b);
      LoadIsBig32(b[4..8]);
      LoadIsBig32(b[8..12]);
      LoadIsBig16(b[14..16]);
    }
  }

  /** Only frames of type 0x0800 reach a transport protocol, and only that of their protocol octet. */
  lemma OnlyItsProtocol(f: seq<byte>, iface: Iface)
    ensures Receive(f, iface).GotTcp? ==> |f| >= 34 && f[12] == 8 && f[13] == 0 && f[14 + 9] == 6
    ensures Receive(f, iface).GotUdp? ==> |f| >= 34 && f[12] == 8 && f[13] == 0 && f[14 + 9] == 17
  {
    hide EtherParse, IpParse, TcpParse, UdpParse;
    EtherTakenIff(f, iface.hwaddr);
    if EtherParse(f, iface.hwaddr).Some? {
      var data := EtherParse(f, iface.hwaddr).value.1;
      IpTakenIff(data, iface);
      if IpParse(data, iface).Taken? {
        TypeOctets(f[12..14]);
        var ip := IpParse(data, iface);
        NoUdpFromTcp(ip.data, ip.src, ip.dst, iface);
      }
    }
  }

  lemma TypeOctets(b: seq<byte>)
    requires |b| == 2
    ensures Big16(b) == 0x0800 <==> b[0] == 8 && b[1] == 0
  {
  }

  lemma NoUdpFromTcp(b: seq<byte>, src: u32, dst: u32, iface: Iface)
    requires |b| < TWO16
    ensures !TcpParse(b, src, dst, iface).GotUdp?
  {
  }

  // ---- End to end ----

  lemma FrameTaken(protocol: byte, data: seq<byte>, src: u32, id: u16, sender: Iface, receiver: Iface)
    requires 20 + |data| <= 1500
    ensures var f := EtherBytes(receiver.hwaddr, sender.hwaddr, TYPE_IP,
                                IpBytes(protocol, data, src, receiver.unicast, id, 0));
            && EtherParse(f, receiver.hwaddr).Some?
            && EtherParse(f, receiver.hwaddr).value.0 == TYPE_IP
            && IpParse(EtherParse(f, receiver.hwaddr).value.1, receiver) ==
               Taken(protocol, data, src, receiver.unicast)
  {
    hide EtherBytes, EtherParse, IpBytes, IpParse;
    var ip := IpBytes(protocol, data, src, receiver.unicast, id, 0);
    EtherUndone(receiver.hwaddr, sender.hwaddr, TYPE_IP, ip);
    var pad :| EtherParse(EtherBytes(receiver.hwaddr, sender.hwaddr, TYPE_IP, ip), receiver.hwaddr) ==
               Some((TYPE_IP, ip + Zeros(pad)));
    IpUndone(protocol, data, src, receiver.unicast, id, receiver, pad);
  }

  /**
   * A datagram that udp_output and ip_output accept, framed for the receiver's hardware address, comes out of the
   * receiver's stack with the sender's interface as its source, its ports and its data untouched; it is dropped exactly
   * when udp_output was given another source address than the interface's (only 0.0.0.0 gets that far) and that address
   * has another one's complement sum.
   */
  lemma UdpEndToEnd(d: Datagram, id: u16, sender: Iface, receiver: Iface)
    requires |d.data| <= PAYLOAD_MAX - 8 && sender.mtu <= 1500 && d.dst.addr == receiver.unicast
    requires IpOutput(Some(sender), PROTOCOL_UDP, UdpBytes(d), d.src.addr, d.dst.addr, id).Some?
    ensures var ip := IpOutput(Some(sender), PROTOCOL_UDP, UdpBytes(d), d.src.addr, d.dst.addr, id).value;
            && |ip| <= sender.mtu
            && Receive(EtherBytes(receiver.hwaddr, sender.hwaddr, TYPE_IP, ip), receiver) ==
               if SameSum(d.src.addr, sender.unicast) then GotUdp(d.(src := d.src.(addr := sender.unicast)))
               else Dropped
  {
    hide EtherBytes, EtherParse, IpBytes, IpParse, UdpBytes, UdpParse, SameSum;
    FrameTaken(PROTOCOL_UDP, UdpBytes(d), sender.unicast, id, sender, receiver);
    UdpUndone(d, sender.unicast);
  }

  /**
   * A datagram from 0.0.0.0 is output by the interface 10.0.0.1 and dropped by its receiver: the checksum was computed
   * with one source address and is verified with another.
   */
  lemma AnySourceIsDropped(data: seq<byte>, port: u16, dst: Endpoint, id: u16, hw: HwAddr, receiver: Iface)
    requires |data| <= 1472 && dst.addr == receiver.unicast != IP_ADDR_BROADCAST
    ensures var sender := Iface(0x0100_000a, 0x0000_000a, 1500, hw);
            var d := Datagram(Endpoint(IP_ADDR_ANY, port), dst, data);
            var ip := IpOutput(Some(sender), PROTOCOL_UDP, UdpBytes(d), IP_ADDR_ANY, dst.addr, id);
            ip.Some? && Receive(EtherBytes(receiver.hwaddr, hw, TYPE_IP, ip.value), receiver) == Dropped
  {
    hide UdpBytes, IpBytes, EtherBytes, Receive;
    var sender := Iface(0x0100_000a, 0x0000_000a, 1500, hw);
    UdpEndToEnd(Datagram(Endpoint(IP_ADDR_ANY, port), dst, data), id, sender, receiver);
    assert !SameSum(IP_ADDR_ANY, sender.unicast);
  }

  lemma TcpEndToEnd(p: Packet, id: u16, sender: Iface, receiver: Iface)
    requires |p.seg.text| <= PAYLOAD_MAX - 20 && sender.mtu <= 1500 && p.dst.addr == receiver.unicast
    requires Unicast(sender.unicast, p.dst.addr, receiver)
    requires IpOutput(Some(sender), PROTOCOL_TCP, TcpBytes(p), p.src.addr, p.dst.addr, id).Some?
    ensures var ip := IpOutput(Some(sender), PROTOCOL_TCP, TcpBytes(p), p.src.addr, p.dst.addr, id).value;
            && |ip| <= sender.mtu
            && Receive(EtherBytes(receiver.hwaddr, sender.hwaddr, TYPE_IP, ip), receiver) ==
               if SameSum(p.src.addr, sender.unicast) then GotTcp(p.(src := p.src.(addr := sender.unicast)))
               else Dropped
  {
    hide EtherBytes, EtherParse, IpBytes, IpParse, TcpBytes, TcpParse, SameSum;
    FrameTaken(PROTOCOL_TCP, TcpBytes(p), sender.unicast, id, sender, receiver);
    TcpUndone(p, sender.unicast, receiver);
  }

  /**
   * Every segment of a tcp_send on a reachable connection that was opened between two unicast interface addresses fits
   * its interface and arrives as it was sent.
   */
  lemma SendArrivesIntact(evs: seq<TcpRun.Event>, data: seq<byte>, turns: seq<TcpSend.Turn>, k: Packet, id: u16,
                          sender: Iface, receiver: Iface)
    requires 40 < sender.mtu <= 1500 && sender.unicast != IP_ADDR_ANY
    requires Unicast(sender.unicast, receiver.unicast, receiver)
    requires TcpRun.IsRun(TcpRun.Fresh(), evs) && CanSend(TcpRun.Run(TcpRun.Fresh(), evs).pcb)
    requires var c := TcpRun.Run(TcpRun.Fresh(), evs);
             && c.here.addr == sender.unicast && c.there.addr == receiver.unicast
             && k in TcpSend.SendCall(c.pcb, data, 0, Some(sender.mtu), turns).emitted
    ensures |k.seg.text| <= PAYLOAD_MAX - 20
    ensures var ip := IpOutput(Some(sender), PROTOCOL_TCP, TcpBytes(k), k.src.addr, k.dst.addr, id);
            && ip.Some? && |ip.value| <= 1500
            && Receive(EtherBytes(receiver.hwaddr, sender.hwaddr, TYPE_IP, ip.value), receiver) == GotTcp(k)
  {
    hide TcpSend.SendCall, Receive, EtherBytes, TcpBytes, IpBytes, TcpRun.Run, TcpRun.IsRun;
    var c := TcpRun.Run(TcpRun.Fresh(), evs);
    TcpPackets.SendRunsBetweenItsEndpoints(evs, data, Some(sender.mtu), turns, k);
    TcpSend.SendRespectsTheMtu(c.pcb, data, 0, Some(sender.mtu), turns);
    assert 40 + |k.seg.text| <= sender.mtu;
    TcpEndToEnd(k, id, sender, receiver);
  }
}
