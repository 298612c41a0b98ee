/** A packet's way through the collector: from its octets to the record and the count it leaves. */
module CollectorPath {
  import opened Wrappers
  import opened Bytes
  import opened DnsName
  import opened DnsMessage
  import opened DnsSiblings
  import opened PacketAgreement
  import PacketParser
  import CollectorDecode
  import CollectorProtocol
  import Collector

  /** The octets of an IPv4 packet with this datagram. */
  function Datagram(ip: IPv4Header, options: seq<Byte>, udp: UdpHeader, body: seq<Byte>): seq<Byte> {
    IPv4Packet(ip, options, EncodeUdp(udp), body)
  }

  /** The sample an encoded datagram is counted as. */
  lemma DatagramSample(ip: IPv4Header, options: seq<Byte>, udp: UdpHeader, body: seq<Byte>)
    requires ip.protocol == PacketParser.UDP && |options| == 4 * ip.words - 20
    requires ip.src != CollectorDecode.LOOPBACK && ip.dst != CollectorDecode.LOOPBACK
    ensures CollectorDecode.DecodeIPv4(Datagram(ip, options, udp, body)) ==
            Some(CollectorDecode.Sample(
                   CollectorDecode.Flow(ip.src, ip.dst, udp.srcPort, udp.dstPort, CollectorDecode.ProtoUDP),
                   4 * ip.words + 8 + |body|, false, false, false))
  {
    PacketLayout(ip, options, EncodeUdp(udp), body);
    ReadUdpHeader(Datagram(ip, options, udp, body), 4 * ip.words, udp);
  }

  /** A DNS datagram's body, whole, decides the record; the packet is counted once, after it. */
  lemma DnsDatagramProcessed<H, D>(s: CollectorProtocol.State<H, D>, ip: IPv4Header, options: seq<Byte>,
                                   udp: UdpHeader, body: seq<Byte>, sample: CollectorDecode.Sample,
                                   parseHttp: (seq<Byte>, CollectorDecode.Flow) -> Option<H>,
                                   parseDns: (seq<Byte>, CollectorDecode.Flow) -> Option<D>)
    requires ip.protocol == PacketParser.UDP && |options| == 4 * ip.words - 20
    requires ip.src != CollectorDecode.LOOPBACK && ip.dst != CollectorDecode.LOOPBACK
    requires body != [] && (udp.srcPort == 53 || udp.dstPort == 53)
    requires CollectorDecode.DecodeIPv4(Datagram(ip, options, udp, body)) == Some(sample)
    ensures Collector.Processed(s, Datagram(ip, options, udp, body), parseHttp, parseDns) ==
            var d := parseDns(body, sample.flow);
            var s1 := if d.Some? then CollectorProtocol.Apply(s, CollectorProtocol.AddDns(d.value)) else s;
            CollectorProtocol.Apply(s1, CollectorProtocol.Count(sample))
  {
    DnsPartIff(ip, options, udp, body);
  }

  /** A question inside a datagram from or to port 53 reaches the collector's decoder whole. */
  lemma QuestionReachesDecoder(ip: IPv4Header, options: seq<Byte>, udp: UdpHeader, body: seq<Byte>,
                               labels: seq<Label>, qtype: nat, qclass: nat)
    requires ip.protocol == PacketParser.UDP && |options| == 4 * ip.words - 20
    requires HoldsQuestion(body, labels, qtype, qclass) && (udp.srcPort == 53 || udp.dstPort == 53)
    ensures var payload := Datagram(ip, options, udp, body);
            && |payload| >= 20 && CollectorDecode.DnsPart(payload) == Some(body)
            && CollectorOf(CollectorDecode.DnsPart(payload).value) ==
               Some(CollectedRecord(Join(labels, DOT), Some(qtype % 256 * 256 + qclass / 256)))
  {
    DnsPartIff(ip, options, udp, body);
    FourDecodersAgree(body, [], labels, qtype, qclass);
  }
}
