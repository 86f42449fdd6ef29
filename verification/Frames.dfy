/** The output functions as the source writes them: buffers filled field by field, then the checksum stored in place. */
module Frames {
  import opened Base
  import opened Checksum
  import opened Tcp
  import opened Wire

  /** Stores or copies `bytes` behind what the buffer holds. */
  method Fill(buf: array<byte>, at: nat, bytes: seq<byte>)
    requires at + |bytes| <= buf.Length
    modifies buf
    ensures buf[..at + |bytes|] == old(buf[..at]) + bytes
    ensures forall i :: at + |bytes| <= i < buf.Length ==> buf[i] == old(buf[i])
  {
    forall i | 0 <= i < |bytes| { buf[at + i] := bytes[i]; }
  }

  /** Stores a checksum between two parts of a message. */
  method StoreSum(buf: array<byte>, v: u16, ghost a: seq<byte>, ghost old': u16, ghost b: seq<byte>, at: nat)
    requires at == |a| && |a| + 2 + |b| <= buf.Length && buf[..|a| + 2 + |b|] == a + Store16(old') + b
    modifies buf
    ensures buf[..|a| + 2 + |b|] == a + Store16(v) + b
  {
    ghost var m := a + Store16(old') + b;
    assert forall i :: 0 <= i < |m| ==> buf[i] == m[i];
    buf[at], buf[at + 1] := v % 256, v / 256;
    forall i | 0 <= i < |m| ensures buf[i] == (a + Store16(v) + b)[i] {
      if i < at || i >= at + 2 { assert m[i] == (a + Store16(v) + b)[i]; }
    }
  }

  /** The checksum of a pseudo header, as initial value for the rest. */
  method PseudoInit(src: u32, dst: u32, protocol: byte, len: u16) returns (psum: u16)
    ensures psum == PseudoSum(src, dst, protocol, len)
  {
    var pseudo := Store32(src) + (Store32(dst) + [0, protocol] + Store16(Swap16(len)));
    var sum := Cksum16(pseudo, 0);
    return 65535 - sum;
  }

  /** ether_transmit_helper: the zeroed frame buffer supplies the padding. */
  method EtherTransmit(dst: HwAddr, src: HwAddr, etype: u16, data: seq<byte>) returns (frame: seq<byte>)
    requires |data| <= 1500
    ensures frame == EtherBytes(dst, src, etype, data)
  {
    var buf := new byte[1514](_ => 0);
    Fill(buf, 0, dst);
    Fill(buf, 6, src);
    Fill(buf, 12, Store16(Swap16(etype)));
    Fill(buf, 14, data);
    assert buf[..14 + |data|] == dst + src + Store16(Swap16(etype)) + data;
    var pad := 0;
    if |data| < 46 {
      pad := 46 - |data|;
    }
    var flen := 14 + |data| + pad;
    frame := buf[..flen];
    assert frame == buf[..14 + |data|] + buf[14 + |data|..flen];
    assert buf[14 + |data|..flen] == Zeros(pad);
  }

  /** ip_output_core. */
  method IpOutputCore(protocol: byte, data: seq<byte>, src: u32, dst: u32, id: u16, offset: u16)
    returns (datagram: seq<byte>)
    requires |data| <= PAYLOAD_MAX
    ensures datagram == IpBytes(protocol, data, src, dst, id, offset)
  {
    var buf := new byte[65535];
    var total: u16 := 20 + |data|;
    ghost var head, addrs := IpHead(protocol, total, id, offset), Store32(src) + Store32(dst);
    Fill(buf, 0, [0x45, 0]);
    Fill(buf, 2, Store16(Swap16(total)));
    Fill(buf, 4, Store16(Swap16(id)));
    Fill(buf, 6, Store16(Swap16(offset)));
    Fill(buf, 8, [255, protocol]);
    assert buf[..10] == head;
    Fill(buf, 10, Store16(0));
    Fill(buf, 12, Store32(src));
    Fill(buf, 16, Store32(dst));
    assert buf[..20] == head + Store16(0) + addrs;
    var sum := Cksum16(buf[..20], 0);
    StoreSum(buf, sum, head, 0, addrs, 10);
    Fill(buf, 20, data);
    datagram := buf[..total];
  }

  /** udp_output up to ip_output: refused exactly when the data is too long for a datagram. */
  method UdpOutput(d: Datagram) returns (segment: Option<seq<byte>>)
    ensures segment.None? <==> |d.data| > PAYLOAD_MAX - 8
    ensures segment.Some? ==> segment.value == UdpBytes(d)
  {
    if |d.data| > PAYLOAD_MAX - 8 {
      return None;
    }
    var len: u16 := 8 + |d.data|;
    var psum := PseudoInit(d.src.addr, d.dst.addr, PROTOCOL_UDP, len);
    var buf := new byte[65515];
    ghost var head := UdpHead(d.src, d.dst, len);
    Fill(buf, 0, Store16(d.src.port));
    Fill(buf, 2, Store16(d.dst.port));
    Fill(buf, 4, Store16(Swap16(len)));
    assert buf[..6] == head;
    Fill(buf, 6, Store16(0));
    Fill(buf, 8, d.data);
    assert buf[..len] == head + Store16(0) + d.data;
    var sum := Cksum16(buf[..len], psum);
    StoreSum(buf, sum, head, 0, d.data, 6);
    return Some(buf[..len]);
  }

  method FillTcpHead(buf: array<byte>, p: Packet)
    requires buf.Length >= 16
    modifies buf
    ensures buf[..16] == TcpHead(p)
  {
    hide Store16, Store32, Swap16, Swap32, FlagByte;
    Fill(buf, 0, Store16(p.src.port));
    Fill(buf, 2, Store16(p.dst.port));
    Fill(buf, 4, Store32(Swap32(p.seg.seqno)));
    Fill(buf, 8, Store32(Swap32(p.seg.ack)));
    Fill(buf, 12, [80, FlagByte(p.seg.flags)]);
    Fill(buf, 14, Store16(Swap16(p.seg.wnd)));
  }

  /**
   * tcp_output_segment up to ip_output. It does not look at the length: nothing stands for a copy that would run past
   * the end of its buffer, which happens exactly when the text is too long for a datagram.
   */
  method TcpOutputSegment(p: Packet) returns (segment: Option<seq<byte>>)
    ensures segment.None? <==> |p.seg.text| > PAYLOAD_MAX - 20
    ensures segment.Some? ==> segment.value == TcpBytes(p)
  {
    if 20 + |p.seg.text| > 65515 {
      return None;
    }
    var total: u16 := 20 + |p.seg.text|;
    var psum := PseudoInit(p.src.addr, p.dst.addr, PROTOCOL_TCP, total);
    hide Store16, Cksum, PseudoSum, TcpHead;
    var buf := new byte[65515](_ => 0);
    ghost var head, rest := TcpHead(p), [0, 0] + p.seg.text;
    FillTcpHead(buf, p);
    Fill(buf, 16, Store16(0));
    Fill(buf, 18, [0, 0]);
    Fill(buf, 20, p.seg.text);
    assert buf[..total] == head + Store16(0) + rest;
    var sum := Cksum16(buf[..total], psum);
    StoreSum(buf, sum, head, 0, rest, 16);
    return Some(buf[..total]);
  }
}
