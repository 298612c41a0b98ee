/**
 * The three frame decoders against one another, and against encoders written
 * from the header layouts of RFC 791 and RFC 9293.
 */
module PacketAgreement {
  import opened Wrappers
  import opened Bytes
  import opened Octets
  import opened Layout
  import opened PacketParser
  import opened CollectorDecode

  // ---------------------------------------------------------------------
  // Parser and sequence extractor
  // ---------------------------------------------------------------------

  /** Where the parser reads the transport header. */
  function TransportOffset(data: seq<Byte>): nat
    requires HasLink(data) && |data| > LinkEnd(data)
  {
    LinkEnd(data) + if EtherType(data) == ETH_IP then HeaderLength(data, LinkEnd(data)) else 40
  }

  lemma SameLinkEnd(data: seq<Byte>)
    requires |data| >= 16
    ensures data[12] == 0x81 && data[13] == 0x00 <==> Tagged(data)
  {
  }

  lemma ParsedVersion(data: seq<Byte>)
    requires Parse(data).Some?
    ensures HasLink(data) && |data| >= LinkEnd(data) + 20
    ensures Parse(data).value.ipVersion == if EtherType(data) == ETH_IP then 4 else 6
    ensures EtherType(data) != ETH_IP ==> |data| >= LinkEnd(data) + 40
  {
  }

  /** On every frame the parser accepts as TCP, the extractor finds the header at the same offset. */
  lemma SameTcpOffset(data: seq<Byte>)
    requires Parse(data).Some?
    ensures HasLink(data) && |data| > LinkEnd(data)
    ensures TcpOffset(data, Parse(data).value) == Some(TransportOffset(data))
  {
    ParsedVersion(data);
    SameLinkEnd(data);
  }

  lemma TransportOfTcp(data: seq<Byte>, off: nat, pkt: Packet)
    requires pkt.protocol == TCP && Transport(data, off, pkt).Some?
    ensures |data| >= off + 20
    ensures FourFlags(Transport(data, off, pkt).value.tcpFlags) == FourFlags(data[off + 13] as bv8)
  {
    var b := data[off + 13] as bv8;
    assert (b & 0x3F) & 0x17 == b & 0x17 && (b & 0x17) & 0x17 == b & 0x17;
  }

  /** The packet as it stands before the transport header is read. */
  function NetworkPart(data: seq<Byte>): Packet
    requires HasLink(data) && |data| >= LinkEnd(data) + if EtherType(data) == ETH_IP then 20 else 40
  {
    var off := LinkEnd(data);
    if EtherType(data) == ETH_IP
    then Packet(data[off + 12..off + 16], data[off + 16..off + 20], data[off + 9], 4, 0, 0, 0)
    else Packet(Fold(data, off + 8), Fold(data, off + 24), data[off + 6], 6, 0, 0, 0)
  }

  lemma ParsedByTransport(data: seq<Byte>)
    requires Parse(data).Some?
    ensures HasLink(data) && |data| >= LinkEnd(data) + if EtherType(data) == ETH_IP then 20 else 40
    ensures Parse(data) == Transport(data, TransportOffset(data), NetworkPart(data))
    ensures NetworkPart(data).protocol == Parse(data).value.protocol
  {
  }

  lemma ParsedTransport(data: seq<Byte>)
    requires Parse(data).Some? && Parse(data).value.protocol == TCP
    ensures HasLink(data) && |data| > LinkEnd(data) && |data| >= TransportOffset(data) + 20
    ensures Parse(data).value.tcpFlags & 0x17 == FourFlags(data[TransportOffset(data) + 13] as bv8)
  {
    ParsedByTransport(data);
    TransportOfTcp(data, TransportOffset(data), NetworkPart(data));
  }

  /**
   * Whenever the parser accepts a TCP frame, tagged or not, IPv4 with any
   * header length or IPv6, the extractor succeeds on it, reads the header at
   * the parser's offset, and reports the parser's flags masked with 0x17.
   */
  lemma ExtractorAgrees(data: seq<Byte>)
    requires Parse(data).Some? && Parse(data).value.protocol == TCP
    ensures HasLink(data) && |data| > LinkEnd(data)
    ensures TcpOffset(data, Parse(data).value) == Some(TransportOffset(data))
    ensures Extract(data, Parse(data).value).Some?
    ensures Extract(data, Parse(data).value).value.flags == Parse(data).value.tcpFlags & 0x17
  {
    SameTcpOffset(data);
    ParsedTransport(data);
  }

  // ---------------------------------------------------------------------
  // Parser and collector
  // ---------------------------------------------------------------------

  /** An untagged IPv4 frame carrying TCP or UDP. */
  predicate PlainIPv4(frame: seq<Byte>) {
    |frame| >= 34 && U16(frame, 12) == ETH_IP && (frame[23] == TCP || frame[23] == UDP)
  }

  predicate FirstFragment(frame: seq<Byte>)
    requires |frame| >= 34
  {
    U16(frame, 20) % 0x2000 == 0
  }

  predicate FromLoopback(pkt: Packet) {
    pkt.srcIp == LOOPBACK || pkt.dstIp == LOOPBACK
  }

  /** What the parser makes of a plain IPv4 frame. */
  lemma ParsePlain(frame: seq<Byte>)
    requires PlainIPv4(frame)
    ensures Captured(frame) == Some(frame[14..])
    ensures Parse(frame).Some? <==> FirstFragment(frame) && PortsFit(frame[14..])
    ensures Parse(frame).Some? ==>
              var pkt, off := Parse(frame).value, 14 + HeaderLength(frame, 14);
              && pkt.srcIp == frame[26..30] && pkt.dstIp == frame[30..34] && pkt.protocol == frame[23]
              && off + 4 <= |frame| && pkt.srcPort == U16(frame, off) && pkt.dstPort == U16(frame, off + 2)
              && (pkt.protocol == TCP ==> off + 20 <= |frame| && pkt.tcpFlags == SixFlags(frame[off + 13] as bv8))
  {
    assert frame[14..][9] == frame[23] && frame[14..][0] == frame[14];
  }

  /** What the collector makes of it. */
  lemma DecodePlain(frame: seq<Byte>)
    requires PlainIPv4(frame) && PortsFit(frame[14..])
    ensures DecodeIPv4(frame[14..]).None? <==> frame[26..30] == LOOPBACK || frame[30..34] == LOOPBACK
    ensures DecodeIPv4(frame[14..]).Some? ==>
              var s, off := DecodeIPv4(frame[14..]).value, 14 + HeaderLength(frame, 14);
              && off + 4 <= |frame|
              && s.flow == Flow(frame[26..30], frame[30..34], U16(frame, off), U16(frame, off + 2), ProtoOf(frame[23]))
              && s.size == |frame| - 14
              && (frame[23] == TCP ==>
                    && off + 20 <= |frame|
                    && (s.syn <==> frame[off + 13] as bv8 & 0x02 != 0)
                    && (s.fin <==> frame[off + 13] as bv8 & 0x01 != 0)
                    && (s.rst <==> frame[off + 13] as bv8 & 0x04 != 0))
  {
    var payload := frame[14..];
    assert payload[9] == frame[23] && payload[0] == frame[14];
    assert payload[12..16] == frame[26..30] && payload[16..20] == frame[30..34];
    var ihl := HeaderLength(payload, 0);
    assert payload[ihl] == frame[14 + ihl] && payload[ihl + 1] == frame[15 + ihl];
    assert payload[ihl + 2] == frame[16 + ihl] && payload[ihl + 3] == frame[17 + ihl];
  }

  /** Same addresses, ports and protocol, and for TCP the same flags. */
  predicate SameFlow(pkt: Packet, s: Sample) {
    && s.flow == Flow(pkt.srcIp, pkt.dstIp, pkt.srcPort, pkt.dstPort, ProtoOf(pkt.protocol))
    && (pkt.protocol == TCP ==>
          && (s.syn <==> pkt.tcpFlags & 0x02 != 0)
          && (s.fin <==> pkt.tcpFlags & 0x01 != 0)
          && (s.rst <==> pkt.tcpFlags & 0x04 != 0))
  }

  /**
   * On an untagged IPv4 TCP or UDP frame the parser accepts and the collector
   * records exactly when it is a first fragment whose transport header fits
   * and neither end is 127.0.0.1; then they agree on the flow.
   */
  lemma CollectorAgrees(frame: seq<Byte>)
    requires PlainIPv4(frame)
    ensures Parse(frame).Some? && !FromLoopback(Parse(frame).value) <==>
              DecodeIPv4(frame[14..]).Some? && FirstFragment(frame) && PortsFit(frame[14..])
    ensures Parse(frame).Some? && !FromLoopback(Parse(frame).value) ==>
              DecodeIPv4(frame[14..]).Some? && SameFlow(Parse(frame).value, DecodeIPv4(frame[14..]).value)
  {
    ParsePlain(frame);
    if PortsFit(frame[14..]) {
      DecodePlain(frame);
      if frame[23] == TCP {
        SameThreeFlags(frame[14 + HeaderLength(frame, 14) + 13] as bv8);
      }
    }
  }

  lemma SameThreeFlags(b: bv8)
    ensures SixFlags(b) & 0x02 == b & 0x02 && SixFlags(b) & 0x01 == b & 0x01 && SixFlags(b) & 0x04 == b & 0x04
  {
  }

  // ---------------------------------------------------------------------
  // Header layouts
  // ---------------------------------------------------------------------

  /** A TCP header, section 3.1 of RFC 9293; `offset` is the header length in words. */
  datatype TcpFields =
    TcpHeader(srcPort: nat, dstPort: nat, seqNum: nat, ackNum: nat, offset: nat, flags: Byte, rest: seq<Byte>)

  type TcpHeader = h: TcpFields |
    && h.srcPort < 0x1_0000 && h.dstPort < 0x1_0000 && h.seqNum < 0x1_0000_0000 && h.ackNum < 0x1_0000_0000
    && h.offset < 16 && |h.rest| == 6
    witness TcpHeader(0, 0, 0, 0, 5, 0, [0, 0, 0, 0, 0, 0])

  function EncodeTcp(h: TcpHeader): (s: seq<Byte>)
    ensures |s| == 20
  {
    PutU16(h.srcPort) +
    (PutU16(h.dstPort) + (PutU32(h.seqNum) + (PutU32(h.ackNum) + ([h.offset * 16, h.flags] + h.rest))))
  }

  /** An IPv4 header, section 3.1 of RFC 791, without its options; `words` is its length with them. */
  datatype IPv4Fields = IPv4Header(words: nat, head: seq<Byte>, fragment: nat, ttl: Byte, protocol: Byte,
                                   checksum: nat, src: Address, dst: Address)

  type IPv4Header = h: IPv4Fields |
    5 <= h.words < 16 && |h.head| == 5 && h.fragment < 0x1_0000 && h.checksum < 0x1_0000
    witness IPv4Header(5, [0, 0, 0, 0, 0], 0, 0, 0, 0, NO_ADDRESS, NO_ADDRESS)

  function EncodeIPv4(h: IPv4Header): (s: seq<Byte>)
    ensures |s| == 20
  {
    [4 * 16 + h.words] +
    (h.head + (PutU16(h.fragment) + ([h.ttl, h.protocol] + (PutU16(h.checksum) + (h.src + h.dst)))))
  }

  lemma ReadTcpHeader(data: seq<Byte>, off: nat, h: TcpHeader)
    requires At(data, off, EncodeTcp(h))
    ensures U16(data, off) == h.srcPort && U16(data, off + 2) == h.dstPort && U32(data, off + 4) == h.seqNum
    ensures data[off + 12] / 16 == h.offset && data[off + 13] == h.flags
  {
    var tail4 := [h.offset * 16, h.flags] + h.rest;
    var tail3 := PutU32(h.ackNum) + tail4;
    var tail2 := PutU32(h.seqNum) + tail3;
    AtConcat(data, off, PutU16(h.srcPort), PutU16(h.dstPort) + tail2);
    AtConcat(data, off + 2, PutU16(h.dstPort), tail2);
    AtConcat(data, off + 4, PutU32(h.seqNum), tail3);
    AtConcat(data, off + 8, PutU32(h.ackNum), tail4);
    U16At(data, off, h.srcPort);
    U16At(data, off + 2, h.dstPort);
    U32At(data, off + 4, h.seqNum);
    AtOctet(data, off + 12, tail4, 0);
    AtOctet(data, off + 12, tail4, 1);
  }

  lemma SplitIPv4Header(data: seq<Byte>, off: nat, h: IPv4Header)
    requires At(data, off, EncodeIPv4(h))
    ensures At(data, off, [4 * 16 + h.words]) && At(data, off + 6, PutU16(h.fragment))
    ensures At(data, off + 8, [h.ttl, h.protocol]) && At(data, off + 12, h.src) && At(data, off + 16, h.dst)
  {
    var tail4 := PutU16(h.checksum) + (h.src + h.dst);
    var tail3 := [h.ttl, h.protocol] + tail4;
    var tail2 := PutU16(h.fragment) + tail3;
    AtConcat(data, off, [4 * 16 + h.words], h.head + tail2);
    AtConcat(data, off + 1, h.head, tail2);
    AtConcat(data, off + 6, PutU16(h.fragment), tail3);
    AtConcat(data, off + 8, [h.ttl, h.protocol], tail4);
    AtConcat(data, off + 10, PutU16(h.checksum), h.src + h.dst);
    AtConcat(data, off + 12, h.src, h.dst);
  }

  lemma ReadIPv4Header(data: seq<Byte>, off: nat, h: IPv4Header)
    requires At(data, off, EncodeIPv4(h))
    ensures HeaderLength(data, off) == 4 * h.words && U16(data, off + 6) == h.fragment && data[off + 9] == h.protocol
    ensures data[off + 12..off + 16] == h.src && data[off + 16..off + 20] == h.dst
  {
    SplitIPv4Header(data, off, h);
    AtOctet(data, off, [4 * 16 + h.words], 0);
    U16At(data, off + 6, h.fragment);
    AtOctet(data, off + 8, [h.ttl, h.protocol], 1);
    AtSlice(data, off + 12, h.src);
    AtSlice(data, off + 16, h.dst);
  }

  /** A frame holding an IPv4 header, its options and a TCP header, after a tagged or untagged link header. */
  ghost predicate HoldsTcp(data: seq<Byte>, ip: IPv4Header, tcp: TcpHeader) {
    && HasLink(data) && EtherType(data) == ETH_IP
    && ip.protocol == TCP && ip.fragment % 0x2000 == 0
    && At(data, LinkEnd(data), EncodeIPv4(ip))
    && At(data, LinkEnd(data) + 4 * ip.words, EncodeTcp(tcp))
  }

  lemma ParseHeld(data: seq<Byte>, ip: IPv4Header, tcp: TcpHeader)
    requires HoldsTcp(data, ip, tcp)
    ensures Parse(data) ==
            Some(Packet(ip.src, ip.dst, TCP, 4, tcp.srcPort, tcp.dstPort, tcp.flags as bv8 & 0x3F))
  {
    var off := LinkEnd(data);
    ReadIPv4Header(data, off, ip);
    ReadTcpHeader(data, off + 4 * ip.words, tcp);
  }

  lemma ExtractHeld(data: seq<Byte>, off: nat, pkt: Packet, tcp: TcpHeader)
    requires pkt.protocol == TCP && TcpOffset(data, pkt) == Some(off) && At(data, off, EncodeTcp(tcp))
    ensures var end := off + 4 * tcp.offset;
            Extract(data, pkt) ==
            Some(Segment(tcp.seqNum, if end < |data| then (|data| - end) % 0x1_0000 else 0, tcp.flags as bv8 & 0x17))
  {
    ReadTcpHeader(data, off, tcp);
  }

  /**
   * On every such frame the parser gives the encoded addresses, ports and
   * flags, and the extractor the encoded sequence number, flags, and the
   * number of octets after the TCP header (stored in 16 bits).
   */
  lemma HeadersRoundTrip(data: seq<Byte>, ip: IPv4Header, tcp: TcpHeader)
    requires HoldsTcp(data, ip, tcp)
    ensures Parse(data) ==
            Some(Packet(ip.src, ip.dst, TCP, 4, tcp.srcPort, tcp.dstPort, tcp.flags as bv8 & 0x3F))
    ensures var end := LinkEnd(data) + 4 * ip.words + 4 * tcp.offset;
            Extract(data, Parse(data).value) ==
            Some(Segment(tcp.seqNum, if end < |data| then (|data| - end) % 0x1_0000 else 0, tcp.flags as bv8 & 0x17))
  {
    ParseHeld(data, ip, tcp);
    SameTcpOffset(data);
    ReadIPv4Header(data, LinkEnd(data), ip);
    ExtractHeld(data, LinkEnd(data) + 4 * ip.words, Parse(data).value, tcp);
  }

  // ---------------------------------------------------------------------
  // The same for UDP and for IPv6
  // ---------------------------------------------------------------------

  datatype UdpFields = UdpHeader(srcPort: nat, dstPort: nat, rest: seq<Byte>)

  /** A UDP header, as RFC 768 lays it out. */
  type UdpHeader = h: UdpFields | h.srcPort < 0x1_0000 && h.dstPort < 0x1_0000 && |h.rest| == 4
    witness UdpHeader(0, 0, [0, 0, 0, 0])

  function EncodeUdp(h: UdpHeader): (s: seq<Byte>)
    ensures |s| == 8
  {
    PutU16(h.srcPort) + (PutU16(h.dstPort) + h.rest)
  }

  lemma ReadUdpHeader(data: seq<Byte>, off: nat, h: UdpHeader)
    requires At(data, off, EncodeUdp(h))
    ensures U16(data, off) == h.srcPort && U16(data, off + 2) == h.dstPort
  {
    AtConcat(data, off, PutU16(h.srcPort), PutU16(h.dstPort) + h.rest);
    AtConcat(data, off + 2, PutU16(h.dstPort), h.rest);
    U16At(data, off, h.srcPort);
    U16At(data, off + 2, h.dstPort);
  }

  datatype IPv6Fields = IPv6Header(head: seq<Byte>, next: Byte, hops: Byte, src: seq<Byte>, dst: seq<Byte>)

  /** An IPv6 header, section 3 of RFC 8200. */
  type IPv6Header = h: IPv6Fields | |h.head| == 6 && |h.src| == 16 && |h.dst| == 16
    witness IPv6Header(seq(6, _ => 0), 0, 0, seq(16, _ => 0), seq(16, _ => 0))

  function EncodeIPv6(h: IPv6Header): (s: seq<Byte>)
    ensures |s| == 40
  {
    h.head + ([h.next, h.hops] + (h.src + h.dst))
  }

  /** Octet `k` of `folded` is the exclusive or of those of the address's four words. */
  predicate OctetFolds(address: seq<Byte>, folded: Address, k: nat)
    requires |address| == 16 && k < 4
  {
    IsXor(folded[k], address[k], address[k + 4], address[k + 8], address[k + 12])
  }

  predicate FoldsTo(address: seq<Byte>, folded: Address)
    requires |address| == 16
  {
    forall k | 0 <= k < 4 :: OctetFolds(address, folded, k)
  }

  lemma FoldIsXor(address: seq<Byte>, f: Address)
    requires |address| == 16 && forall k | 0 <= k < 4 :: f[k] == FoldAt(address, k)
    ensures FoldsTo(address, f)
  {
    forall k | 0 <= k < 4
      ensures OctetFolds(address, f, k)
    {
      FoldAtBits(address, k);
    }
  }

  lemma SameOctet(address: seq<Byte>, f: Address, g: Address, k: nat)
    requires |address| == 16 && k < 4 && OctetFolds(address, f, k) && OctetFolds(address, g, k)
    ensures f[k] == g[k]
  {
    XorIsUnique(f[k], g[k], address[k], address[k + 4], address[k + 8], address[k + 12]);
  }

  lemma FoldsToIsUnique(address: seq<Byte>, f: Address, g: Address)
    requires |address| == 16 && FoldsTo(address, f) && FoldsTo(address, g)
    ensures f == g
  {
    forall k | 0 <= k < 4
      ensures f[k] == g[k]
    {
      SameOctet(address, f, g, k);
    }
  }

  /** The fold of an address is the exclusive or of its words, and nothing else is. */
  lemma FoldsToIff(address: seq<Byte>, folded: Address)
    requires |address| == 16
    ensures FoldsTo(address, folded) <==> folded == Fold(address, 0)
  {
    var f := Fold(address, 0);
    FoldIsXor(address, f);
    if FoldsTo(address, folded) {
      FoldsToIsUnique(address, folded, f);
    }
  }

  lemma ChangeShows1(a: seq<Byte>, k: nat, octet: Byte, f: Address, g: Address)
    requires |a| == 16 && k < 4 && octet != a[k]
    requires FoldsTo(a, f) && FoldsTo(a[k := octet], g)
    ensures f != g
  {
    assert OctetFolds(a, f, k) && OctetFolds(a[k := octet], g, k);
    FirstShows(f[k], g[k], a[k], octet, a[k + 4], a[k + 8], a[k + 12]);
  }

  lemma ChangeShows2(a: seq<Byte>, k: nat, octet: Byte, f: Address, g: Address)
    requires |a| == 16 && k < 4 && octet != a[k + 4]
    requires FoldsTo(a, f) && FoldsTo(a[k + 4 := octet], g)
    ensures f != g
  {
    assert OctetFolds(a, f, k) && OctetFolds(a[k + 4 := octet], g, k);
    SecondShows(f[k], g[k], a[k + 4], octet, a[k], a[k + 8], a[k + 12]);
  }

  lemma ChangeShows3(a: seq<Byte>, k: nat, octet: Byte, f: Address, g: Address)
    requires |a| == 16 && k < 4 && octet != a[k + 8]
    requires FoldsTo(a, f) && FoldsTo(a[k + 8 := octet], g)
    ensures f != g
  {
    assert OctetFolds(a, f, k) && OctetFolds(a[k + 8 := octet], g, k);
    ThirdShows(f[k], g[k], a[k + 8], octet, a[k], a[k + 4], a[k + 12]);
  }

  lemma ChangeShows4(a: seq<Byte>, k: nat, octet: Byte, f: Address, g: Address)
    requires |a| == 16 && k < 4 && octet != a[k + 12]
    requires FoldsTo(a, f) && FoldsTo(a[k + 12 := octet], g)
    ensures f != g
  {
    assert OctetFolds(a, f, k) && OctetFolds(a[k + 12 := octet], g, k);
    FourthShows(f[k], g[k], a[k + 12], octet, a[k], a[k + 4], a[k + 8]);
  }

  /** Two addresses that differ in one octet, the `k`-th of some word, fold to different ones. */
  lemma OneOctetShows(a: seq<Byte>, word: nat, k: nat, octet: Byte, f: Address, g: Address)
    requires |a| == 16 && word < 4 && k < 4 && octet != a[4 * word + k]
    requires FoldsTo(a, f) && FoldsTo(a[4 * word + k := octet], g)
    ensures f != g
  {
    if word == 0 {
      ChangeShows1(a, k, octet, f, g);
    } else if word == 1 {
      ChangeShows2(a, k, octet, f, g);
    } else if word == 2 {
      ChangeShows3(a, k, octet, f, g);
    } else {
      ChangeShows4(a, k, octet, f, g);
    }
  }

  /** A slice folds like the octets it came from. */
  lemma FoldSlice(data: seq<Byte>, off: nat, address: seq<Byte>)
    requires |address| == 16 && At(data, off, address)
    ensures Fold(data, off) == Fold(address, 0)
  {
    AtSlice(data, off, address);
    assert forall i | 0 <= i < 16 :: data[off + i] == address[i];
  }

  lemma ReadIPv6Header(data: seq<Byte>, off: nat, h: IPv6Header)
    requires At(data, off, EncodeIPv6(h))
    ensures data[off + 6] == h.next
    ensures Fold(data, off + 8) == Fold(h.src, 0)
    ensures Fold(data, off + 24) == Fold(h.dst, 0)
  {
    AtConcat(data, off, h.head, [h.next, h.hops] + (h.src + h.dst));
    AtConcat(data, off + 6, [h.next, h.hops], h.src + h.dst);
    AtConcat(data, off + 8, h.src, h.dst);
    AtOctet(data, off + 6, [h.next, h.hops], 0);
    FoldSlice(data, off + 8, h.src);
    FoldSlice(data, off + 24, h.dst);
  }

  /** A frame holding an IPv6 header. */
  ghost predicate HoldsIPv6(data: seq<Byte>, ip: IPv6Header) {
    HasLink(data) && EtherType(data) == ETH_IPV6 && At(data, LinkEnd(data), EncodeIPv6(ip))
  }

  /** A UDP datagram over IPv4, its options between the headers, is read back. */
  lemma UdpRoundTrip(data: seq<Byte>, ip: IPv4Header, udp: UdpHeader)
    requires HasLink(data) && EtherType(data) == ETH_IP && ip.protocol == UDP && ip.fragment % 0x2000 == 0
    requires At(data, LinkEnd(data), EncodeIPv4(ip)) && At(data, LinkEnd(data) + 4 * ip.words, EncodeUdp(udp))
    ensures Parse(data) == Some(Packet(ip.src, ip.dst, UDP, 4, udp.srcPort, udp.dstPort, 0))
  {
    ReadIPv4Header(data, LinkEnd(data), ip);
    ReadUdpHeader(data, LinkEnd(data) + 4 * ip.words, udp);
  }

  lemma Udp6Parsed(data: seq<Byte>, ip: IPv6Header, udp: UdpHeader)
    requires HoldsIPv6(data, ip) && ip.next == UDP && At(data, LinkEnd(data) + 40, EncodeUdp(udp))
    ensures Parse(data) ==
            Some(Packet(Fold(ip.src, 0), Fold(ip.dst, 0), UDP, 6, udp.srcPort, udp.dstPort, 0))
  {
    ReadIPv6Header(data, LinkEnd(data), ip);
    ReadUdpHeader(data, LinkEnd(data) + 40, udp);
  }

  /** Over IPv6 the addresses come back as the exclusive or of their words. */
  lemma Udp6RoundTrip(data: seq<Byte>, ip: IPv6Header, udp: UdpHeader, src: Address, dst: Address)
    requires HoldsIPv6(data, ip) && ip.next == UDP && At(data, LinkEnd(data) + 40, EncodeUdp(udp))
    requires FoldsTo(ip.src, src) && FoldsTo(ip.dst, dst)
    ensures Parse(data) == Some(Packet(src, dst, UDP, 6, udp.srcPort, udp.dstPort, 0))
  {
    FoldsToIff(ip.src, src);
    FoldsToIff(ip.dst, dst);
    Udp6Parsed(data, ip, udp);
  }

  lemma TransportHeld6(data: seq<Byte>, off: nat, src: Address, dst: Address, tcp: TcpHeader)
    requires At(data, off, EncodeTcp(tcp))
    ensures Transport(data, off, Packet(src, dst, TCP, 6, 0, 0, 0)) ==
            Some(Packet(src, dst, TCP, 6, tcp.srcPort, tcp.dstPort, tcp.flags as bv8 & 0x17))
  {
    ReadTcpHeader(data, off, tcp);
  }

  lemma ParseHeld6(data: seq<Byte>, ip: IPv6Header, tcp: TcpHeader)
    requires HoldsIPv6(data, ip) && ip.next == TCP && At(data, LinkEnd(data) + 40, EncodeTcp(tcp))
    ensures Parse(data) == Some(Packet(Fold(ip.src, 0), Fold(ip.dst, 0), TCP, 6,
                                       tcp.srcPort, tcp.dstPort, tcp.flags as bv8 & 0x17))
  {
    ReadIPv6Header(data, LinkEnd(data), ip);
    TransportHeld6(data, LinkEnd(data) + 40, Fold(ip.src, 0), Fold(ip.dst, 0), tcp);
  }

  lemma Extract6Held(data: seq<Byte>, ip: IPv6Header, tcp: TcpHeader)
    requires HoldsIPv6(data, ip) && ip.next == TCP && At(data, LinkEnd(data) + 40, EncodeTcp(tcp))
    ensures Parse(data).Some?
    ensures var end := LinkEnd(data) + 40 + 4 * tcp.offset;
            Extract(data, Parse(data).value) ==
            Some(Segment(tcp.seqNum, if end < |data| then (|data| - end) % 0x1_0000 else 0, tcp.flags as bv8 & 0x17))
  {
    ParseHeld6(data, ip, tcp);
    SameTcpOffset(data);
    ExtractHeld(data, LinkEnd(data) + 40, Parse(data).value, tcp);
  }

  /** And the extractor reads the same TCP header. */
  lemma Headers6RoundTrip(data: seq<Byte>, ip: IPv6Header, tcp: TcpHeader, src: Address, dst: Address)
    requires HoldsIPv6(data, ip) && ip.next == TCP && At(data, LinkEnd(data) + 40, EncodeTcp(tcp))
    requires FoldsTo(ip.src, src) && FoldsTo(ip.dst, dst)
    ensures Parse(data) == Some(Packet(src, dst, TCP, 6, tcp.srcPort, tcp.dstPort, tcp.flags as bv8 & 0x17))
    ensures var end := LinkEnd(data) + 40 + 4 * tcp.offset;
            Extract(data, Parse(data).value) ==
            Some(Segment(tcp.seqNum, if end < |data| then (|data| - end) % 0x1_0000 else 0, tcp.flags as bv8 & 0x17))
  {
    FoldsToIff(ip.src, src);
    FoldsToIff(ip.dst, dst);
    ParseHeld6(data, ip, tcp);
    Extract6Held(data, ip, tcp);
  }

  // ---------------------------------------------------------------------
  // Everything else
  // ---------------------------------------------------------------------

  /** ICMP over IPv4 stands under its type, and needs eight octets. */
  lemma IcmpIsParsed(data: seq<Byte>, ip: IPv4Header)
    requires HasLink(data) && EtherType(data) == ETH_IP && ip.protocol == ICMP && ip.fragment % 0x2000 == 0
    requires At(data, LinkEnd(data), EncodeIPv4(ip))
    ensures var off := LinkEnd(data) + 4 * ip.words;
            Parse(data) ==
            if |data| < off + 8 then None else Some(Packet(ip.src, ip.dst, ICMP, 4, 0, data[off], 0))
  {
    ReadIPv4Header(data, LinkEnd(data), ip);
  }

  /** Any other protocol is a flow without ports, whatever follows the header. */
  lemma OtherIsParsed(data: seq<Byte>, ip: IPv4Header)
    requires HasLink(data) && EtherType(data) == ETH_IP && ip.fragment % 0x2000 == 0
    requires ip.protocol != TCP && ip.protocol != UDP && ip.protocol != ICMP
    requires At(data, LinkEnd(data), EncodeIPv4(ip))
    ensures Parse(data) == Some(Packet(ip.src, ip.dst, ip.protocol, 4, 0, 0, 0))
  {
    ReadIPv4Header(data, LinkEnd(data), ip);
  }

  lemma Other6IsParsed(data: seq<Byte>, ip: IPv6Header)
    requires HoldsIPv6(data, ip) && ip.next != TCP && ip.next != UDP
    ensures Parse(data) == Some(Packet(Fold(ip.src, 0), Fold(ip.dst, 0), ip.next, 6, 0, 0, 0))
  {
    ReadIPv6Header(data, LinkEnd(data), ip);
  }

  /** The octets a transport header must have. */
  function Needed(protocol: Byte, version: nat): nat {
    if protocol == 6 then 20 else if protocol == 17 || (protocol == 1 && version == 4) then 8 else 0
  }

  /** Exactly which frames are accepted: whole headers, no later fragment, and IP. */
  lemma AcceptedIff(data: seq<Byte>)
    ensures Parse(data).Some? <==>
            && |data| >= 14
            && var tagged := data[12] == 0x81 && data[13] == 0x00;
               var off := if tagged then 18 else 14;
            && |data| >= off
            && ((data[off - 2] == 0x08 && data[off - 1] == 0x00 && |data| >= off + 20
                 && data[off + 6] % 32 == 0 && data[off + 7] == 0
                 && (Needed(data[off + 9], 4) > 0 ==> |data| >= off + data[off] % 16 * 4 + Needed(data[off + 9], 4)))
                || (data[off - 2] == 0x86 && data[off - 1] == 0xDD && |data| >= off + 40
                    && |data| >= off + 40 + Needed(data[off + 6], 6)))
  {
    if |data| >= 14 {
      TypeOctets(data, 12);
      if HasLink(data) {
        var off := LinkEnd(data);
        TypeOctets(data, off - 2);
        if |data| >= off + 20 {
          FragmentOctets(data[off + 6], data[off + 7]);
        }
      }
    }
  }

  /** Exactly when the extractor finds a TCP header, whatever packet it is told about. */
  lemma ExtractsIff(data: seq<Byte>, pkt: Packet)
    ensures var off := if |data| >= 16 && data[12] == 0x81 && data[13] == 0x00 then 18 else 14;
            Extract(data, pkt).Some? <==>
            && pkt.protocol == 6
            && ((pkt.ipVersion == 4 && |data| >= off + 20 && |data| >= off + data[off] % 16 * 4 + 20)
                || (pkt.ipVersion == 6 && |data| >= off + 60))
  {
  }

  lemma TypeOctets(data: seq<Byte>, i: nat)
    requires i + 2 <= |data|
    ensures U16(data, i) == ETH_VLAN <==> data[i] == 0x81 && data[i + 1] == 0x00
    ensures U16(data, i) == ETH_IP <==> data[i] == 0x08 && data[i + 1] == 0x00
    ensures U16(data, i) == ETH_IPV6 <==> data[i] == 0x86 && data[i + 1] == 0xDD
  {
  }

  lemma FragmentOctets(hi: Byte, lo: Byte)
    ensures (hi as int * 256 + lo) % 0x2000 == 0 <==> hi % 32 == 0 && lo == 0
  {
  }

  // ---------------------------------------------------------------------
  // What the collector hands to its parsers
  // ---------------------------------------------------------------------

  /** An IPv4 packet: header, options, transport header, and the rest. */
  function IPv4Packet(ip: IPv4Header, options: seq<Byte>, transport: seq<Byte>, rest: seq<Byte>): seq<Byte> {
    EncodeIPv4(ip) + options + transport + rest
  }

  lemma PacketLayout(ip: IPv4Header, options: seq<Byte>, transport: seq<Byte>, rest: seq<Byte>)
    requires |options| == 4 * ip.words - 20
    ensures var payload := IPv4Packet(ip, options, transport, rest);
            && |payload| == 4 * ip.words + |transport| + |rest|
            && HeaderLength(payload, 0) == 4 * ip.words && payload[9] == ip.protocol
            && payload[12..16] == ip.src && payload[16..20] == ip.dst
            && At(payload, 4 * ip.words, transport)
            && payload[4 * ip.words + |transport|..] == rest
  {
    var payload := IPv4Packet(ip, options, transport, rest);
    assert payload == [] + EncodeIPv4(ip) + (options + transport + rest);
    AtContext([], EncodeIPv4(ip), options + transport + rest);
    ReadIPv4Header(payload, 0, ip);
    AtContext(EncodeIPv4(ip) + options, transport, rest);
  }

  /** The DNS parser is handed the datagram's body exactly when there is one and a port is 53. */
  lemma DnsPartIff(ip: IPv4Header, options: seq<Byte>, udp: UdpHeader, body: seq<Byte>)
    requires ip.protocol == UDP && |options| == 4 * ip.words - 20
    ensures var payload := IPv4Packet(ip, options, EncodeUdp(udp), body);
            && |payload| >= 20
            && DnsPart(payload) ==
               (if body != [] && (udp.srcPort == 53 || udp.dstPort == 53) then Some(body) else None)
            && HttpPart(payload) == None
  {
    PacketLayout(ip, options, EncodeUdp(udp), body);
    ReadUdpHeader(IPv4Packet(ip, options, EncodeUdp(udp), body), 4 * ip.words, udp);
  }

  /** The HTTP parser is handed the segment's data exactly when there is some and it goes to an HTTP port. */
  lemma HttpPartIff(ip: IPv4Header, options: seq<Byte>, tcp: TcpHeader, tcpOptions: seq<Byte>, body: seq<Byte>)
    requires ip.protocol == TCP && |options| == 4 * ip.words - 20
    requires tcp.offset >= 5 && |tcpOptions| == 4 * tcp.offset - 20
    ensures var payload, port := IPv4Packet(ip, options, EncodeTcp(tcp) + tcpOptions, body), tcp.dstPort;
            && |payload| >= 20
            && HttpPart(payload) ==
               (if body != [] && (port == 80 || port == 443 || port == 3000 || 8000 <= port <= 9999)
                then Some(body) else None)
            && DnsPart(payload) == None
  {
    var payload := IPv4Packet(ip, options, EncodeTcp(tcp) + tcpOptions, body);
    PacketLayout(ip, options, EncodeTcp(tcp) + tcpOptions, body);
    AtConcat(payload, 4 * ip.words, EncodeTcp(tcp), tcpOptions);
    ReadTcpHeader(payload, 4 * ip.words, tcp);
  }

  /** Neither is handed anything of another protocol. */
  lemma NoPart(payload: seq<Byte>)
    requires |payload| >= 20 && payload[9] != TCP && payload[9] != UDP
    ensures HttpPart(payload) == None && DnsPart(payload) == None
  {
  }

  /** Which packets are counted, under which flow when the transport header is cut or missing. */
  lemma SampleIff(payload: seq<Byte>)
    ensures DecodeIPv4(payload).Some? <==>
            && |payload| >= 20 && payload[0] % 16 * 4 <= |payload|
            && payload[12..16] != [127, 0, 0, 1] && payload[16..20] != [127, 0, 0, 1]
    ensures DecodeIPv4(payload).Some? && !PortsFit(payload) ==>
              DecodeIPv4(payload).value ==
              Sample(Flow(payload[12..16], payload[16..20], 0, 0,
                          if payload[9] == 6 then ProtoTCP else if payload[9] == 17 then ProtoUDP
                          else if payload[9] == 1 then ProtoICMP else ProtoIP),
                     |payload|, false, false, false)
  {
  }
}
