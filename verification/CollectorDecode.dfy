/** The Go collector's IPv4 decoder. */
module CollectorDecode {
  import opened Wrappers
  import opened Bytes
  import opened PacketParser

  datatype Proto = ProtoIP | ProtoTCP | ProtoUDP | ProtoICMP

  /** The 5-tuple a flow is aggregated under. */
  datatype Flow = Flow(srcIp: Address, dstIp: Address, srcPort: nat, dstPort: nat, proto: Proto)

  /** What one packet contributes: its flow, its size and its SYN, FIN and RST flags. */
  datatype Sample = Sample(flow: Flow, size: nat, syn: bool, fin: bool, rst: bool)

  const LOOPBACK: Address := [127, 0, 0, 1]

  /** The IPv4 packet inside an untagged frame. */
  function Captured(frame: seq<Byte>): Option<seq<Byte>> {
    if |frame| >= 14 && frame[12] == 0x08 && frame[13] == 0x00 then Some(frame[14..]) else None
  }

  function ProtoOf(b: Byte): Proto {
    if b == TCP then ProtoTCP else if b == UDP then ProtoUDP else if b == ICMP then ProtoICMP else ProtoIP
  }

  /** The transport header is inside the packet. */
  predicate PortsFit(payload: seq<Byte>)
    requires |payload| >= 20
  {
    || (payload[9] == TCP && |payload| >= HeaderLength(payload, 0) + 20)
    || (payload[9] == UDP && |payload| >= HeaderLength(payload, 0) + 8)
  }

  /** The sample of a packet; nothing for a cut header or a packet to or from 127.0.0.1. */
  function DecodeIPv4(payload: seq<Byte>): Option<Sample> {
    if |payload| < 20 || HeaderLength(payload, 0) > |payload| then None
    else if payload[12..16] == LOOPBACK || payload[16..20] == LOOPBACK then None
    else
      var ihl := HeaderLength(payload, 0);
      var fit := PortsFit(payload);
      Some(Sample(Flow(payload[12..16], payload[16..20],
                       if fit then U16(payload, ihl) else 0, if fit then U16(payload, ihl + 2) else 0,
                       ProtoOf(payload[9])),
                  |payload|, Flagged(payload, 0x02), Flagged(payload, 0x01), Flagged(payload, 0x04)))
  }

  /** The packet has a whole TCP header with a flag of the mask set. */
  predicate Flagged(payload: seq<Byte>, m: bv8)
    requires |payload| >= 20
  {
    payload[9] == TCP && PortsFit(payload) && payload[HeaderLength(payload, 0) + 13] as bv8 & m != 0
  }

  predicate IsHttpPort(port: nat) {
    port in {80, 443, 3000, 8000, 8080, 8443} || 8000 <= port <= 9999
  }

  /** The octets handed to the HTTP parser: what follows a whole TCP header towards an HTTP port. */
  function HttpPart(payload: seq<Byte>): Option<seq<Byte>>
    requires |payload| >= 20
  {
    var ihl := HeaderLength(payload, 0);
    if payload[9] != TCP || |payload| < ihl + 20 || !IsHttpPort(U16(payload, ihl + 2)) then None
    else
      var start := ihl + payload[ihl + 12] / 16 * 4;
      if start < |payload| then Some(payload[start..]) else None
  }

  /** The octets handed to the DNS parser: what follows the UDP header of a packet from or to port 53. */
  function DnsPart(payload: seq<Byte>): Option<seq<Byte>>
    requires |payload| >= 20
  {
    var ihl := HeaderLength(payload, 0);
    if payload[9] == UDP && |payload| > ihl + 8 && (U16(payload, ihl) == 53 || U16(payload, ihl + 2) == 53)
    then Some(payload[ihl + 8..])
    else None
  }

  /** The decoding half of processIPv4, branch by branch. */
  method ReadPacket(payload: seq<Byte>) returns (r: Option<Sample>)
    ensures r == DecodeIPv4(payload)
  {
    if |payload| < 20 {
      return None;
    }
    var ihl := payload[0] % 16 * 4;
    if ihl > |payload| {
      return None;
    }
    var protocol := payload[9];
    var srcIp, dstIp := payload[12..16], payload[16..20];
    if srcIp == LOOPBACK || dstIp == LOOPBACK {
      return None;
    }
    var proto, srcPort, dstPort, flags := ProtoIP, 0, 0, 0 as bv8;
    if protocol == TCP {
      proto := ProtoTCP;
      if |payload| >= ihl + 20 {
        srcPort, dstPort := U16(payload, ihl), U16(payload, ihl + 2);
        flags := payload[ihl + 13] as bv8;
      }
    } else if protocol == UDP {
      proto := ProtoUDP;
      if |payload| >= ihl + 8 {
        srcPort, dstPort := U16(payload, ihl), U16(payload, ihl + 2);
      }
    } else if protocol == ICMP {
      proto := ProtoICMP;
    }
    r := Some(Sample(Flow(srcIp, dstIp, srcPort, dstPort, proto), |payload|,
                     flags & 0x02 != 0, flags & 0x01 != 0, flags & 0x04 != 0));
  }
}
