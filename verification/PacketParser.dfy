/**
 * The C probe's two hand-written frame decoders: the packet parser and the
 * TCP sequence extractor, each with its own offset computation over the same
 * octets (section 3.1 of RFC 791, section 3 of RFC 8200, section 3.1 of RFC 9293).
 */
module PacketParser {
  import opened Wrappers
  import opened Bytes
  import opened Octets

  const ETH_IP: nat := 0x0800
  const ETH_IPV6: nat := 0x86DD
  const ETH_VLAN: nat := 0x8100
  const ICMP: Byte := 1
  const TCP: Byte := 6
  const UDP: Byte := 17

  /** An address as its four octets in network order. */
  type Address = s: seq<Byte> | |s| == 4 witness [0, 0, 0, 0]

  const NO_ADDRESS: Address := [0, 0, 0, 0]

  datatype Packet = Packet(srcIp: Address, dstIp: Address, protocol: Byte, ipVersion: nat,
                           srcPort: nat, dstPort: nat, tcpFlags: bv8)

  // ---------------------------------------------------------------------
  // Flags and addresses
  // ---------------------------------------------------------------------

  function FlagBit(b: bv8, m: bv8): bv8 {
    if b & m != 0 then m else 0
  }

  /** SYN, ACK, FIN and RST. */
  function FourFlags(b: bv8): (r: bv8)
    ensures r == b & 0x17
  {
    FlagBit(b, 0x02) | FlagBit(b, 0x10) | FlagBit(b, 0x01) | FlagBit(b, 0x04)
  }

  /** Those four, PSH and URG. */
  function SixFlags(b: bv8): (r: bv8)
    ensures r == b & 0x3F
  {
    FlagBit(b, 0x02) | FlagBit(b, 0x10) | FlagBit(b, 0x01) | FlagBit(b, 0x04) | FlagBit(b, 0x08) | FlagBit(b, 0x20)
  }

  /** A 128-bit address folded into 32 bits, word by word. */
  function Fold(data: seq<Byte>, off: nat): Address
    requires off + 16 <= |data|
  {
    [FoldAt(data, off), FoldAt(data, off + 1), FoldAt(data, off + 2), FoldAt(data, off + 3)]
  }

  function FoldAt(data: seq<Byte>, i: nat): Byte
    requires i + 12 < |data|
  {
    Xor(Xor(data[i], data[i + 4]), Xor(data[i + 8], data[i + 12]))
  }

  lemma FoldAtBits(data: seq<Byte>, i: nat)
    requires i + 12 < |data|
    ensures IsXor(FoldAt(data, i), data[i], data[i + 4], data[i + 8], data[i + 12])
  {
    XorOfFour(data[i], data[i + 4], data[i + 8], data[i + 12]);
  }

  // ---------------------------------------------------------------------
  // The packet parser
  // ---------------------------------------------------------------------

  predicate Tagged(data: seq<Byte>)
    requires |data| >= 14
  {
    U16(data, 12) == ETH_VLAN
  }

  /** The frame is long enough for its link-layer header. */
  predicate HasLink(data: seq<Byte>) {
    |data| >= 14 && (Tagged(data) ==> |data| >= 18)
  }

  function LinkEnd(data: seq<Byte>): nat
    requires |data| >= 14
  {
    if Tagged(data) then 18 else 14
  }

  function EtherType(data: seq<Byte>): nat
    requires HasLink(data)
  {
    U16(data, LinkEnd(data) - 2)
  }

  /** The header length an IPv4 header at `off` announces. */
  function HeaderLength(data: seq<Byte>, off: nat): nat
    requires off < |data|
  {
    data[off] % 16 * 4
  }

  /** What the transport header at `off` adds; nothing if it does not fit. */
  function Transport(data: seq<Byte>, off: nat, pkt: Packet): Option<Packet> {
    if pkt.protocol == TCP then
      if |data| < off + 20 then None
      else
        Some(pkt.(srcPort := U16(data, off), dstPort := U16(data, off + 2),
                  tcpFlags := if pkt.ipVersion == 4 then SixFlags(data[off + 13] as bv8)
                              else FourFlags(data[off + 13] as bv8)))
    else if pkt.protocol == UDP then
      if |data| < off + 8 then None
      else Some(pkt.(srcPort := U16(data, off), dstPort := U16(data, off + 2)))
    else if pkt.protocol == ICMP && pkt.ipVersion == 4 then
      if |data| < off + 8 then None else Some(pkt.(dstPort := data[off]))
    else Some(pkt)
  }

  function ParseIPv4(data: seq<Byte>, off: nat): Option<Packet> {
    if |data| < off + 20 || U16(data, off + 6) % 0x2000 != 0 then None
    else
      Transport(data, off + HeaderLength(data, off),
                Packet(data[off + 12..off + 16], data[off + 16..off + 20], data[off + 9], 4, 0, 0, 0))
  }

  function ParseIPv6(data: seq<Byte>, off: nat): Option<Packet> {
    if |data| < off + 40 then None
    else Transport(data, off + 40, Packet(Fold(data, off + 8), Fold(data, off + 24), data[off + 6], 6, 0, 0, 0))
  }

  /** The whole frame. */
  function Parse(data: seq<Byte>): Option<Packet> {
    if !HasLink(data) then None
    else if EtherType(data) == ETH_IP then ParseIPv4(data, LinkEnd(data))
    else if EtherType(data) == ETH_IPV6 then ParseIPv6(data, LinkEnd(data))
    else None
  }

  /** The event record the parser writes through its pointer. */
  class PacketEvent {
    var srcIp: Address
    var dstIp: Address
    var protocol: Byte
    var ipVersion: nat
    var srcPort: nat
    var dstPort: nat
    var tcpFlags: bv8

    function View(): Packet
      reads this
    {
      Packet(srcIp, dstIp, protocol, ipVersion, srcPort, dstPort, tcpFlags)
    }

    constructor ()
      ensures View() == Packet(NO_ADDRESS, NO_ADDRESS, 0, 0, 0, 0, 0)
    {
      srcIp, dstIp := NO_ADDRESS, NO_ADDRESS;
      protocol, ipVersion, srcPort, dstPort, tcpFlags := 0, 0, 0, 0, 0;
    }
  }

  method ReadIPv4(data: seq<Byte>, off: nat, evt: PacketEvent) returns (ok: bool)
    requires evt.tcpFlags == 0
    modifies evt
    ensures ok == ParseIPv4(data, off).Some?
    ensures ok ==> ParseIPv4(data, off) == Some(evt.View())
  {
    if |data| < off + 20 {
      return false;
    }
    if U16(data, off + 6) % 0x2000 != 0 {
      return false;
    }
    evt.srcIp, evt.dstIp := data[off + 12..off + 16], data[off + 16..off + 20];
    evt.protocol := data[off + 9];
    evt.ipVersion := 4;
    evt.srcPort, evt.dstPort := 0, 0;
    ok := ReadTransport4(data, off + data[off] % 16 * 4, evt);
  }

  /** The transport branches of the IPv4 case. */
  method ReadTransport4(data: seq<Byte>, transport: nat, evt: PacketEvent) returns (ok: bool)
    requires evt.ipVersion == 4 && evt.srcPort == 0 && evt.dstPort == 0
    modifies evt
    ensures ok == Transport(data, transport, old(evt.View())).Some?
    ensures ok ==> Transport(data, transport, old(evt.View())) == Some(evt.View())
  {
    if evt.protocol == TCP {
      if |data| < transport + 20 {
        return false;
      }
      evt.srcPort := U16(data, transport);
      evt.dstPort := U16(data, transport + 2);
      evt.tcpFlags := SixFlags(data[transport + 13] as bv8);
    } else if evt.protocol == UDP {
      if |data| < transport + 8 {
        return false;
      }
      evt.srcPort := U16(data, transport);
      evt.dstPort := U16(data, transport + 2);
    } else if evt.protocol == ICMP {
      if |data| < transport + 8 {
        return false;
      }
      evt.srcPort := 0;
      evt.dstPort := data[transport];
    } else {
      evt.srcPort := 0;
      evt.dstPort := 0;
    }
    ok := true;
  }

  method ReadIPv6(data: seq<Byte>, off: nat, evt: PacketEvent) returns (ok: bool)
    requires evt.tcpFlags == 0
    modifies evt
    ensures ok == ParseIPv6(data, off).Some?
    ensures ok ==> ParseIPv6(data, off) == Some(evt.View())
  {
    if |data| < off + 40 {
      return false;
    }
    evt.srcIp, evt.dstIp := Fold(data, off + 8), Fold(data, off + 24);
    evt.protocol := data[off + 6];
    evt.ipVersion := 6;
    evt.srcPort, evt.dstPort := 0, 0;
    ok := ReadTransport6(data, off + 40, evt);
  }

  /** The transport branches of the IPv6 case. */
  method ReadTransport6(data: seq<Byte>, transport: nat, evt: PacketEvent) returns (ok: bool)
    requires evt.ipVersion == 6 && evt.srcPort == 0 && evt.dstPort == 0
    modifies evt
    ensures ok == Transport(data, transport, old(evt.View())).Some?
    ensures ok ==> Transport(data, transport, old(evt.View())) == Some(evt.View())
  {
    if evt.protocol == TCP {
      if |data| < transport + 20 {
        return false;
      }
      evt.srcPort := U16(data, transport);
      evt.dstPort := U16(data, transport + 2);
      evt.tcpFlags := FourFlags(data[transport + 13] as bv8);
    } else if evt.protocol == UDP {
      if |data| < transport + 8 {
        return false;
      }
      evt.srcPort := U16(data, transport);
      evt.dstPort := U16(data, transport + 2);
    } else {
      evt.srcPort := 0;
      evt.dstPort := 0;
    }
    ok := true;
  }

  /** packet_parse_raw, on a zero-initialised event. */
  method ParseRaw(data: seq<Byte>, evt: PacketEvent) returns (ok: bool)
    requires evt.tcpFlags == 0
    modifies evt
    ensures ok == Parse(data).Some?
    ensures ok ==> Parse(data) == Some(evt.View())
  {
    if |data| < 14 {
      return false;
    }
    var ethProto := U16(data, 12);
    var offset := 14;
    if ethProto == ETH_VLAN {
      if |data| < 18 {
        return false;
      }
      ethProto := U16(data, 16);
      offset := 18;
    }
    if ethProto == ETH_IP {
      ok := ReadIPv4(data, offset, evt);
    } else if ethProto == ETH_IPV6 {
      ok := ReadIPv6(data, offset, evt);
    } else {
      ok := false;
    }
  }

  // ---------------------------------------------------------------------
  // The TCP sequence extractor
  // ---------------------------------------------------------------------

  datatype Segment = Segment(seqNum: nat, payloadLen: nat, flags: bv8)

  /** The extractor's own idea of where the TCP header starts; it trusts the packet's IP version. */
  function TcpOffset(data: seq<Byte>, pkt: Packet): Option<nat> {
    var eth := if |data| >= 16 && data[12] == 0x81 && data[13] == 0x00 then 18 else 14;
    if pkt.ipVersion == 4 then
      if |data| < eth + 20 then None else Some(eth + HeaderLength(data, eth))
    else if pkt.ipVersion == 6 then Some(eth + 40)
    else None
  }

  /** Payload lengths are stored in 16 bits. */
  function PayloadLength(data: seq<Byte>, off: nat): nat
    requires off + 20 <= |data|
  {
    var end := off + data[off + 12] / 16 * 4;
    if end < |data| then (|data| - end) % 0x1_0000 else 0
  }

  function SegmentAt(data: seq<Byte>, off: nat): Segment
    requires off + 20 <= |data|
  {
    Segment(U32(data, off + 4), PayloadLength(data, off), FourFlags(data[off + 13] as bv8))
  }

  function Extract(data: seq<Byte>, pkt: Packet): Option<Segment> {
    if pkt.protocol != TCP then None
    else
      match TcpOffset(data, pkt)
      case None => None
      case Some(off) =>
        if |data| < off + 20 then None else Some(SegmentAt(data, off))
  }

  method ReadSegment(data: seq<Byte>, tcp: nat) returns (r: Segment)
    requires tcp + 20 <= |data|
    ensures r == SegmentAt(data, tcp)
  {
    var seqNum := data[tcp + 4] as int * 0x100_0000 + data[tcp + 5] as int * 0x1_0000 +
                  data[tcp + 6] as int * 0x100 + data[tcp + 7];
    var totalHdr := tcp + data[tcp + 12] / 16 * 4;
    var payloadLen := if totalHdr < |data| then (|data| - totalHdr) % 0x1_0000 else 0;
    r := Segment(seqNum, payloadLen, FourFlags(data[tcp + 13] as bv8));
  }

  method ExtractTcpSeqNum(data: seq<Byte>, pkt: Packet) returns (r: Option<Segment>)
    ensures r == Extract(data, pkt)
  {
    if pkt.protocol != TCP {
      return None;
    }
    var ethOffset := 14;
    if |data| >= 16 && data[12] == 0x81 && data[13] == 0x00 {
      ethOffset := 18;
    }
    var ipOffset, ipHdrLen := ethOffset, 20;
    if pkt.ipVersion == 4 {
      if |data| < ipOffset + 20 {
        return None;
      }
      ipHdrLen := data[ipOffset] % 16 * 4;
    } else if pkt.ipVersion == 6 {
      ipOffset := ethOffset + 40;
      ipHdrLen := 0;
    } else {
      return None;
    }
    var tcp := ipOffset + ipHdrLen;
    if |data| < tcp + 20 {
      return None;
    }
    var segment := ReadSegment(data, tcp);
    r := Some(segment);
  }
}
