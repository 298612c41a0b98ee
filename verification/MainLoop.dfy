/**
 * The probe's main loop around the flow tracker: captured frames, then the
 * four /proc/net tables, then ageing every so often, then one batch out.
 */
module MainLoop {
  import opened Wrappers
  import opened Bytes
  import opened Modular
  import opened FlowTable
  import opened FlowRuns
  import opened FlowTotals
  import opened FlowEvents
  import opened DupAck
  import opened FlowTracker
  import PacketParser
  import PacketAgreement

  const MAX_FLOWS: nat := 4096
  const MAX_FRAMES: nat := 1000
  const MAX_AGE: nat := 60_000_000_000

  /** A frame as read from the socket, and when. */
  datatype RawFrame = RawFrame(data: seq<Byte>, ts: nat)

  datatype TcpInfo = TcpInfo(seqNum: nat, payload: nat, synOrFin: bool, ack: bool)

  /** A frame that parsed; its TCP fields if it carries TCP. */
  datatype Frame = Frame(key: Key, size: nat, ts: nat, tcp: Option<TcpInfo>)

  /**
   * What a round meets: frames waiting, the /proc/net tables, the clock when
   * they are read, whether metrics are due, and the clock at cleanup.
   */
  datatype Round = Round(raw: seq<RawFrame>, tcp4: seq<Entry>, udp4: seq<Entry>, tcp6: seq<Entry>, udp6: seq<Entry>,
                         ts: nat, due: bool, cleanupTs: nat)

  // ---------------------------------------------------------------------
  // From octets to frames
  // ---------------------------------------------------------------------

  /** An address as the number a key holds. */
  function AddressKey(a: PacketParser.Address): nat {
    Bytes.U32(a, 0)
  }

  function KeyOf(pkt: PacketParser.Packet): Key {
    Key(AddressKey(pkt.srcIp), AddressKey(pkt.dstIp), pkt.srcPort, pkt.dstPort, pkt.protocol, pkt.ipVersion)
  }

  function InfoOf(seg: PacketParser.Segment): TcpInfo {
    TcpInfo(seg.seqNum, seg.payloadLen, seg.flags & 0x03 != 0, seg.flags & 0x10 != 0)
  }

  function TcpOf(data: seq<Byte>, pkt: PacketParser.Packet): Option<TcpInfo> {
    match PacketParser.Extract(data, pkt)
    case None => None
    case Some(seg) => Some(InfoOf(seg))
  }

  /** The frame the parser and the extractor make of these octets, if the parser accepts them. */
  function FrameOf(raw: RawFrame): Option<Frame> {
    match PacketParser.Parse(raw.data)
    case None => None
    case Some(pkt) => Some(Frame(KeyOf(pkt), |raw.data|, raw.ts, TcpOf(raw.data, pkt)))
  }

  function Frames(raws: seq<RawFrame>): seq<Frame> {
    if raws == [] then []
    else
      var last := FrameOf(raws[|raws| - 1]);
      Frames(raws[..|raws| - 1]) + if last.Some? then [last.value] else []
  }

  /** A frame carries TCP fields exactly when its protocol is TCP, and they agree with the parser's flags. */
  lemma FrameHasSegmentIff(raw: RawFrame)
    requires FrameOf(raw).Some?
    ensures FrameOf(raw).value.tcp.Some? <==> FrameOf(raw).value.key.protocol == PacketParser.TCP
    ensures FrameOf(raw).value.tcp.Some? ==>
              var flags := PacketParser.Parse(raw.data).value.tcpFlags;
              && FrameOf(raw).value.tcp.value.synOrFin == (flags & 0x03 != 0)
              && FrameOf(raw).value.tcp.value.ack == (flags & 0x10 != 0)
  {
    if PacketParser.Parse(raw.data).value.protocol == PacketParser.TCP {
      PacketAgreement.ExtractorAgrees(raw.data);
      SameBits(PacketParser.Parse(raw.data).value.tcpFlags);
    }
  }

  lemma SameBits(b: bv8)
    ensures b & 0x17 & 0x03 == b & 0x03 && b & 0x17 & 0x10 == b & 0x10
  {
  }

  /** Headers written into a frame come out as its flow, its size and its segment. */
  lemma FrameRoundTrip(raw: RawFrame, ip: PacketAgreement.IPv4Header, tcp: PacketAgreement.TcpHeader)
    requires PacketAgreement.HoldsTcp(raw.data, ip, tcp)
    ensures PacketParser.HasLink(raw.data)
    ensures var end := PacketParser.LinkEnd(raw.data) + 4 * ip.words + 4 * tcp.offset;
            FrameOf(raw) ==
            Some(Frame(Key(AddressKey(ip.src), AddressKey(ip.dst), tcp.srcPort, tcp.dstPort, PacketParser.TCP, 4),
                       |raw.data|, raw.ts,
                       Some(TcpInfo(tcp.seqNum, if end < |raw.data| then (|raw.data| - end) % 0x1_0000 else 0,
                                    tcp.flags as bv8 & 0x03 != 0, tcp.flags as bv8 & 0x10 != 0))))
  {
    PacketAgreement.HeadersRoundTrip(raw.data, ip, tcp);
    SameBits(tcp.flags as bv8);
  }

  /** What the frame holds, from what the parser and the extractor read. */
  lemma FrameWithSegment(raw: RawFrame, pkt: PacketParser.Packet, seg: PacketParser.Segment)
    requires PacketParser.Parse(raw.data) == Some(pkt) && PacketParser.Extract(raw.data, pkt) == Some(seg)
    ensures FrameOf(raw) ==
            Some(Frame(Key(AddressKey(pkt.srcIp), AddressKey(pkt.dstIp), pkt.srcPort, pkt.dstPort,
                           pkt.protocol, pkt.ipVersion),
                       |raw.data|, raw.ts,
                       Some(TcpInfo(seg.seqNum, seg.payloadLen, seg.flags & 0x03 != 0, seg.flags & 0x10 != 0))))
  {
  }

  /** Any other accepted frame is its packet and nothing more. */
  lemma FrameWithoutSegment(raw: RawFrame, pkt: PacketParser.Packet)
    requires PacketParser.Parse(raw.data) == Some(pkt) && pkt.protocol != PacketParser.TCP
    ensures FrameOf(raw) ==
            Some(Frame(Key(AddressKey(pkt.srcIp), AddressKey(pkt.dstIp), pkt.srcPort, pkt.dstPort,
                           pkt.protocol, pkt.ipVersion),
                       |raw.data|, raw.ts, None))
  {
  }

  lemma {:induction false} FramesPrefix(raws: seq<RawFrame>, n: nat)
    requires n <= |raws|
    ensures Frames(raws[..n]) <= Frames(raws)
    decreases |raws|
  {
    if n == |raws| {
      assert raws[..n] == raws;
    } else {
      FramesPrefix(raws[..|raws| - 1], n);
      assert raws[..|raws| - 1][..n] == raws[..n];
    }
  }

  // ---------------------------------------------------------------------
  // A round as steps of the tracker
  // ---------------------------------------------------------------------

  /** TCP and UDP tables share a quarter of the flow limit, once for IPv4 and once for IPv6. */
  function Polled(r: Round): (es: seq<Entry>)
    ensures |es| <= 2 * (MAX_FLOWS / 4)
  {
    var quarter := MAX_FLOWS / 4;
    var tcp4 := FirstOf(r.tcp4, quarter);
    var udp4 := FirstOf(r.udp4, quarter - |tcp4|);
    var tcp6 := FirstOf(r.tcp6, quarter);
    var udp6 := FirstOf(r.udp6, quarter - |tcp6|);
    tcp4 + udp4 + tcp6 + udp6
  }

  /** For each IP version the entries are the first of both tables, TCP before UDP, up to a quarter of the limit. */
  lemma PolledIs(r: Round)
    ensures Polled(r) == FirstOf(r.tcp4 + r.udp4, 1024) + FirstOf(r.tcp6 + r.udp6, 1024)
  {
    TwoTables(r.tcp4, r.udp4, 1024);
    TwoTables(r.tcp6, r.udp6, 1024);
    var tcp4, tcp6 := FirstOf(r.tcp4, 1024), FirstOf(r.tcp6, 1024);
    FourParts(tcp4, FirstOf(r.udp4, 1024 - |tcp4|), tcp6, FirstOf(r.udp6, 1024 - |tcp6|));
  }

  lemma FourParts<T>(a: seq<T>, b: seq<T>, c: seq<T>, d: seq<T>)
    ensures a + b + c + d == (a + b) + (c + d)
  {
  }

  lemma TwoTables<T>(a: seq<T>, b: seq<T>, n: nat)
    ensures FirstOf(a, n) + FirstOf(b, n - |FirstOf(a, n)|) == FirstOf(a + b, n)
  {
  }

  function FrameSteps(f: Frame): seq<Step> {
    [Touch(f.key, Packet(f.size), f.ts)] +
    if f.tcp.None? then []
    else [Touch(f.key, Segment(f.tcp.value.seqNum, f.tcp.value.payload, f.tcp.value.synOrFin), f.ts)]
  }

  function AllFrameSteps(fs: seq<Frame>): seq<Step> {
    if fs == [] then [] else AllFrameSteps(fs[..|fs| - 1]) + FrameSteps(fs[|fs| - 1])
  }

  /** The frames a round takes: the first 1000 that parse. */
  function Taken(raws: seq<RawFrame>): seq<Frame> {
    FirstOf(Frames(raws), MAX_FRAMES)
  }

  function RoundSteps(r: Round): seq<Step> {
    AllFrameSteps(Taken(r.raw)) + ReadingSteps(Polled(r), r.ts) +
    (if r.due then [Age(MAX_AGE, r.cleanupTs)] else []) + [Drain]
  }

  function LoopSteps(rounds: seq<Round>): seq<Step> {
    if rounds == [] then [] else LoopSteps(rounds[..|rounds| - 1]) + RoundSteps(rounds[|rounds| - 1])
  }

  // ---------------------------------------------------------------------
  // Room for the events of a run
  // ---------------------------------------------------------------------

  /** Steps that can raise an event. */
  function Cost(steps: seq<Step>): nat {
    if steps == [] then 0 else Cost(steps[..|steps| - 1]) + CostOf(steps[|steps| - 1])
  }

  function CostOf(step: Step): nat {
    if step.Touch? && !step.input.Segment? then 1 else 0
  }

  lemma {:induction false} CostConcat(a: seq<Step>, b: seq<Step>)
    ensures Cost(a + b) == Cost(a) + Cost(b)
    decreases |b|
  {
    if b == [] {
      assert a + b == a;
    } else {
      CostConcat(a, b[..|b| - 1]);
      assert (a + b)[..|a| + |b| - 1] == a + b[..|b| - 1];
    }
  }

  /** Nothing is lost, and what was handed over followed by what waits is what came before and `raised`. */
  ghost predicate AllKept(s: Tracker, s': Tracker, raised: seq<FlowEvent>) {
    && s'.lost == s.lost
    && |s'.slots| == |s.slots|
    && s'.delivered + s'.events == s.delivered + s.events + raised
  }

  lemma StepKeepsAll(s: Tracker, step: Step)
    requires |s.events| + CostOf(step) <= 2 * |s.slots|
    ensures AllKept(s, Apply(s, step), RaisedBy(s, step))
    ensures |Apply(s, step).events| <= |s.events| + CostOf(step)
  {
    var before := s.delivered + s.events;
    assert before + [] == before;
    if step.Touch? {
      var evs := RaisedBy(s, step);
      assert s.delivered + (s.events + evs) == before + evs;
      assert s.events + [] == s.events;
    }
  }

  lemma AllKeptOnward(s: Tracker, mid: Tracker, s': Tracker, first: seq<FlowEvent>, next: seq<FlowEvent>)
    requires AllKept(s, mid, first) && AllKept(mid, s', next)
    ensures AllKept(s, s', first + next)
  {
    var all := s.delivered + s.events;
    assert all + (first + next) == (all + first) + next;
  }

  lemma {:induction false} RunKeepsAll(s: Tracker, steps: seq<Step>)
    requires |s.events| + Cost(steps) <= 2 * |s.slots|
    ensures AllKept(s, Exec(s, steps), Raised(s, steps))
    ensures |Exec(s, steps).events| <= |s.events| + Cost(steps)
    decreases |steps|
  {
    if steps == [] {
      assert s.delivered + s.events + [] == s.delivered + s.events;
    } else {
      var n := |steps| - 1;
      RunKeepsAll(s, steps[..n]);
      var mid := Exec(s, steps[..n]);
      StepKeepsAll(mid, steps[n]);
      AllKeptOnward(s, mid, Apply(mid, steps[n]), Raised(s, steps[..n]), RaisedBy(mid, steps[n]));
    }
  }

  // ---------------------------------------------------------------------
  // The budget of a round
  // ---------------------------------------------------------------------

  lemma {:induction false} FramesCost(fs: seq<Frame>)
    ensures Cost(AllFrameSteps(fs)) == |fs|
    decreases |fs|
  {
    if fs != [] {
      var n := |fs| - 1;
      FramesCost(fs[..n]);
      CostConcat(AllFrameSteps(fs[..n]), FrameSteps(fs[n]));
      FrameCost(fs[n]);
    }
  }

  lemma CostOne(step: Step)
    ensures Cost([step]) == CostOf(step)
  {
    assert [step][..0] == [];
  }

  lemma FrameCost(f: Frame)
    ensures Cost(FrameSteps(f)) == 1
  {
    var steps := FrameSteps(f);
    CostOne(steps[0]);
    if f.tcp.None? {
      assert steps == [steps[0]];
    } else {
      CostOne(steps[1]);
      CostConcat([steps[0]], [steps[1]]);
    }
  }

  lemma {:induction false} ReadingsCost(es: seq<Entry>, ts: nat)
    ensures Cost(ReadingSteps(es, ts)) == |es|
    decreases |es|
  {
    if es != [] {
      ReadingsCost(es[..|es| - 1], ts);
      assert ReadingSteps(es, ts)[..|es| - 1] == ReadingSteps(es[..|es| - 1], ts);
    }
  }

  /** A round raises at most 1000 + 2048 events, well below the buffer's 8192 places. */
  lemma RoundCost(r: Round)
    ensures Cost(RoundSteps(r)) <= MAX_FRAMES + 2 * (MAX_FLOWS / 4) < 2 * MAX_FLOWS
  {
    var frames, readings := AllFrameSteps(Taken(r.raw)), ReadingSteps(Polled(r), r.ts);
    var age: seq<Step> := if r.due then [Age(MAX_AGE, r.cleanupTs)] else [];
    FramesCost(Taken(r.raw));
    ReadingsCost(Polled(r), r.ts);
    CostConcat(frames, readings);
    CostConcat(frames + readings, age);
    CostConcat(frames + readings + age, [Drain]);
    assert [Drain][..0] == [];
    assert r.due ==> age[..0] == [];
  }

  /** A round that starts with an empty buffer hands over exactly what it raises, and ends with an empty one. */
  lemma RoundDeliversAll(s: Tracker, r: Round)
    requires s.events == [] && |s.slots| == MAX_FLOWS
    ensures var s' := Exec(s, RoundSteps(r));
            && s'.events == [] && |s'.slots| == MAX_FLOWS && s'.lost == s.lost
            && s'.delivered == s.delivered + Raised(s, RoundSteps(r))
  {
    RoundCost(r);
    RunKeepsAll(s, RoundSteps(r));
    var s', raised := Exec(s, RoundSteps(r)), Raised(s, RoundSteps(r));
    assert s'.delivered + [] == s'.delivered;
    assert s.delivered + [] + raised == s.delivered + raised;
  }

  lemma {:induction false} LoopKeepsAll(rounds: seq<Round>)
    ensures var s := Exec(Create(MAX_FLOWS), LoopSteps(rounds));
            && s.events == [] && |s.slots| == MAX_FLOWS && s.lost == []
            && s.delivered == Raised(Create(MAX_FLOWS), LoopSteps(rounds))
    decreases |rounds|
  {
    if rounds != [] {
      var n, s0 := |rounds| - 1, Create(MAX_FLOWS);
      LoopKeepsAll(rounds[..n]);
      var before, steps := LoopSteps(rounds[..n]), RoundSteps(rounds[n]);
      RoundDeliversAll(Exec(s0, before), rounds[n]);
      ExecConcat(s0, before, steps);
      RaisedConcat(s0, before, steps);
    }
  }

  /**
   * Over every run of the main loop no event is ever dropped: the batches
   * handed over are exactly the events raised, in order, and their bytes are
   * the bytes held in the slots, modulo 2^64.
   */
  lemma MainLoopNeverDrops(rounds: seq<Round>)
    ensures var s := Exec(Create(MAX_FLOWS), LoopSteps(rounds));
            && s.lost == [] && s.events == []
            && s.delivered == Raised(Create(MAX_FLOWS), LoopSteps(rounds))
            && Congruent(SlotBytes(s.slots), EventBytes(s.delivered))
  {
    LoopKeepsAll(rounds);
    EveryRunConservesBytes(MAX_FLOWS, LoopSteps(rounds));
    NothingHeldBack(Exec(Create(MAX_FLOWS), LoopSteps(rounds)));
  }

  lemma NothingHeldBack(s: Tracker)
    requires BytesConserved(s) && s.events == [] && s.lost == []
    ensures Congruent(SlotBytes(s.slots), EventBytes(s.delivered))
  {
  }

  // ---------------------------------------------------------------------
  // What a round does to the flows
  // ---------------------------------------------------------------------

  lemma NoneStale(rs: seq<Slot>, maxAge: nat, ts: nat, i: nat)
    requires i < |rs|
    ensures !IsStale(Aged(rs, maxAge, ts)[i], maxAge, ts)
  {
  }

  /** The steps of a round before it hands its events over. */
  function Gathered(r: Round): seq<Step> {
    AllFrameSteps(Taken(r.raw)) + ReadingSteps(Polled(r), r.ts)
  }

  /** A round in which metrics are due ages the table once, after everything else; any other does not age it. */
  lemma RoundAges(s: Tracker, r: Round)
    ensures Exec(s, RoundSteps(r)).slots ==
            if r.due then Aged(Exec(s, Gathered(r)).slots, 60_000_000_000, r.cleanupTs) else Exec(s, Gathered(r)).slots
  {
    var mid := Exec(s, Gathered(r));
    if r.due {
      ExecSnoc(s, Gathered(r), Age(MAX_AGE, r.cleanupTs));
      ExecSnoc(s, Gathered(r) + [Age(MAX_AGE, r.cleanupTs)], Drain);
    } else {
      assert Gathered(r) + [] == Gathered(r);
      ExecSnoc(s, Gathered(r), Drain);
    }
  }

  /** So no flow survives it that has not been seen for a minute. */
  lemma DueRoundLeavesNoneStale(s: Tracker, r: Round, i: nat)
    requires r.due && i < |Exec(s, RoundSteps(r)).slots|
    ensures !IsStale(Exec(s, RoundSteps(r)).slots[i], 60_000_000_000, r.cleanupTs)
  {
    RoundAges(s, r);
    NoneStale(Exec(s, Gathered(r)).slots, 60_000_000_000, r.cleanupTs, i);
  }

  /** The event is a captured frame's, with its size, or a polled entry's. */
  predicate FromRound(r: Round, e: FlowEvent) {
    || (exists i | 0 <= i < |Taken(r.raw)| :: IsFrameEvent(Taken(r.raw)[i], e))
    || (exists i | 0 <= i < |Polled(r)| :: Polled(r)[i].key == e.key && r.ts == e.at)
  }

  predicate IsFrameEvent(f: Frame, e: FlowEvent) {
    e == FlowEvent(f.ts, f.key, f.size)
  }

  lemma {:induction false} FrameStepIs(fs: seq<Frame>, step: Step) returns (i: nat)
    requires step in AllFrameSteps(fs)
    ensures i < |fs| && step in FrameSteps(fs[i])
    decreases |fs|
  {
    var n := |fs| - 1;
    if step in AllFrameSteps(fs[..n]) {
      i := FrameStepIs(fs[..n], step);
    } else {
      i := n;
    }
  }

  lemma {:induction false} ReadingStepIs(es: seq<Entry>, ts: nat, step: Step) returns (i: nat)
    requires step in ReadingSteps(es, ts)
    ensures i < |es| && step == Touch(es[i].key, Reading(es[i].rx, es[i].tx), ts)
    decreases |es|
  {
    i :| 0 <= i < |ReadingSteps(es, ts)| && ReadingSteps(es, ts)[i] == step;
  }

  /** A touch that raises an event comes from a frame's packet or from an entry. */
  lemma TouchOfRound(r: Round, step: Step, e: FlowEvent, slot: Slot)
    requires step in RoundSteps(r) && step.Touch? && !step.input.Segment?
    requires step.key == e.key && step.ts == e.at && e.bytes == Gain(slot, step.input)
    ensures FromRound(r, e)
  {
    if step in AllFrameSteps(Taken(r.raw)) {
      var i := FrameStepIs(Taken(r.raw), step);
      assert IsFrameEvent(Taken(r.raw)[i], e);
    } else {
      var i := ReadingStepIs(Polled(r), r.ts, step);
      assert Polled(r)[i].key == e.key;
    }
  }

  /** Every event a round raises is a captured frame's or a polled entry's. */
  lemma RaisedFromRound(s: Tracker, r: Round, e: FlowEvent)
    requires e in Raised(s, RoundSteps(r))
    ensures FromRound(r, e)
  {
    var j := RaisedBelongs(s, RoundSteps(r), e);
    TouchOfRound(r, RoundSteps(r)[j], e, Before(Exec(s, RoundSteps(r)[..j]), e.key));
  }

  /** Over any number of rounds, what is handed over under a key is, modulo 2^64, what that flow was told. */
  lemma DeliveredPerFlow(rounds: seq<Round>, key: Key)
    ensures var s, steps := Exec(Create(MAX_FLOWS), LoopSteps(rounds)), LoopSteps(rounds);
            && Of(s.delivered, key) == AllStayEvents(Stays(MAX_FLOWS, steps, key))
            && Congruent(EventBytes(Of(s.delivered, key)), AllAccounts(Stays(MAX_FLOWS, steps, key)))
  {
    LoopKeepsAll(rounds);
    EventsOfFlow(MAX_FLOWS, LoopSteps(rounds), key);
    FlowEventBytes(MAX_FLOWS, LoopSteps(rounds), key);
  }

  // ---------------------------------------------------------------------
  // The loop body
  // ---------------------------------------------------------------------

  /** The parser on a cleared event, then the extractor. */
  method ReadFrame(raw: RawFrame) returns (f: Option<Frame>)
    ensures f == FrameOf(raw)
  {
    var evt := new PacketParser.PacketEvent();
    var ok := PacketParser.ParseRaw(raw.data, evt);
    if !ok {
      return None;
    }
    var pkt := evt.View();
    var seg := PacketParser.ExtractTcpSeqNum(raw.data, pkt);
    var tcp := if seg.None? then None else Some(InfoOf(seg.value));
    f := Some(Frame(KeyOf(pkt), |raw.data|, raw.ts, tcp));
  }

  /** What the loop does with one parsed frame. */
  method TrackFrame(ft: FlowTracker, ring: AckRing, f: Frame)
    requires ft.Valid() && ring.Valid()
    modifies ft, ft.records, ft.events, ring, ring.last
    ensures ring.Valid()
    ensures ft.Valid() && ft.View() == Exec(old(ft.View()), FrameSteps(f))
  {
    ExecFrame(ft.View(), f);
    ft.UpdateSingle(f.key, f.size, f.ts);
    if f.tcp.Some? {
      var tcp := f.tcp.value;
      var found, retransmit, dup :=
        ft.CheckRetransmit(f.key, tcp.seqNum, tcp.payload, tcp.synOrFin, tcp.ack, ring, f.ts);
    }
  }

  /** The capture loop: frames that do not parse are passed over and not counted. */
  method CaptureFrames(ft: FlowTracker, ring: AckRing, raws: seq<RawFrame>)
    requires ft.Valid() && ring.Valid()
    modifies ft, ft.records, ft.events, ring, ring.last
    ensures ring.Valid()
    ensures ft.Valid() && ft.View() == Exec(old(ft.View()), AllFrameSteps(Taken(raws)))
  {
    ghost var s := ft.View();
    ghost var done: seq<Frame> := [];
    var i, n := 0, 0;
    while i < |raws| && n < MAX_FRAMES
      invariant 0 <= i <= |raws| && n == |done| <= MAX_FRAMES && done == Frames(raws[..i])
      invariant ring.Valid() && ft.Valid() && ft.View() == Exec(s, AllFrameSteps(done))
    {
      FramesSnoc(raws, i);
      var f := ReadFrame(raws[i]);
      if f.Some? {
        TrackFrame(ft, ring, f.value);
        ExecFrameSnoc(s, done, f.value);
        done := done + [f.value];
        n := n + 1;
      }
      i := i + 1;
    }
    TakenIs(raws, i, done);
  }

  lemma FramesSnoc(raws: seq<RawFrame>, i: nat)
    requires i < |raws|
    ensures Frames(raws[..i + 1]) ==
            if FrameOf(raws[i]).Some? then Frames(raws[..i]) + [FrameOf(raws[i]).value] else Frames(raws[..i])
  {
    assert raws[..i + 1][..i] == raws[..i];
  }

  lemma TakenIs(raws: seq<RawFrame>, i: nat, done: seq<Frame>)
    requires i <= |raws| && done == Frames(raws[..i]) && |done| <= MAX_FRAMES
    requires i == |raws| || |done| == MAX_FRAMES
    ensures done == Taken(raws)
  {
    FramesPrefix(raws, i);
    assert i == |raws| ==> raws[..i] == raws;
  }

  lemma ExecFrameSnoc(s: Tracker, frames: seq<Frame>, f: Frame)
    ensures Exec(s, AllFrameSteps(frames + [f])) == Exec(Exec(s, AllFrameSteps(frames)), FrameSteps(f))
  {
    assert (frames + [f])[..|frames|] == frames;
    ExecConcat(s, AllFrameSteps(frames), FrameSteps(f));
  }

  lemma ExecFrame(s: Tracker, f: Frame)
    ensures var first := DoTouch(s, f.key, Packet(f.size), f.ts);
            Exec(s, FrameSteps(f)) ==
            if f.tcp.None? then first
            else DoTouch(first, f.key, Segment(f.tcp.value.seqNum, f.tcp.value.payload, f.tcp.value.synOrFin), f.ts)
  {
    var steps := FrameSteps(f);
    ExecOne(s, steps[0]);
    if f.tcp.None? {
      assert steps == [steps[0]];
    } else {
      ExecOne(Apply(s, steps[0]), steps[1]);
      ExecConcat(s, [steps[0]], [steps[1]]);
    }
  }

  lemma ExecOne(s: Tracker, step: Step)
    ensures Exec(s, [step]) == Apply(s, step)
  {
    assert [step][..0] == [];
  }

  /** One iteration of the main loop; `batch` is what the serializer is called with. */
  method RunRound(ft: FlowTracker, ring: AckRing, r: Round) returns (batch: seq<FlowEvent>)
    requires ft.Valid() && ring.Valid() && ft.records.Length == MAX_FLOWS && ft.View().events == []
    modifies ft, ft.records, ft.events, ring, ring.last
    ensures ring.Valid()
    ensures ft.Valid() && ft.View() == Exec(old(ft.View()), RoundSteps(r))
    ensures ft.View().events == [] && batch == Raised(old(ft.View()), RoundSteps(r))
    ensures ft.View().lost == old(ft.View().lost) && forall e | e in batch :: FromRound(r, e)
  {
    ghost var s := ft.View();
    RoundDeliversAll(s, r);
    CaptureFrames(ft, ring, r.raw);
    ghost var frames, readings := AllFrameSteps(Taken(r.raw)), ReadingSteps(Polled(r), r.ts);
    ft.Update(Polled(r), r.ts);
    ExecConcat(s, frames, readings);
    ghost var age: seq<Step> := if r.due then [Age(MAX_AGE, r.cleanupTs)] else [];
    if r.due {
      ExecOne(ft.View(), Age(MAX_AGE, r.cleanupTs));
      ft.Cleanup(MAX_AGE, r.cleanupTs);
    }
    ExecConcat(s, frames + readings, age);
    ghost var mid := ft.View();
    batch := ft.GetEvents(MAX_FLOWS * 2);
    if |batch| > 0 || r.due {
      ft.Flush();
    } else {
      assert mid.delivered + [] == mid.delivered;
    }
    ExecOne(mid, Drain);
    ExecConcat(s, frames + readings + age, [Drain]);
    NoDrain(s, frames + readings + age, r);
    BatchIsRaised(s, frames + readings + age, mid, batch, r);
    forall e | e in batch
      ensures FromRound(r, e)
    {
      RaisedFromRound(s, r, e);
    }
  }

  /** Only the last step of a round hands events over. */
  lemma NoDrain(s: Tracker, steps: seq<Step>, r: Round)
    requires RoundSteps(r) == steps + [Drain]
    ensures Exec(s, steps).delivered == s.delivered
  {
    var frames, readings := AllFrameSteps(Taken(r.raw)), ReadingSteps(Polled(r), r.ts);
    var age: seq<Step> := if r.due then [Age(MAX_AGE, r.cleanupTs)] else [];
    assert steps == (steps + [Drain])[..|steps|] == frames + readings + age;
    FramesDrainNothing(Taken(r.raw));
    DeliveredSame(s, steps);
  }

  lemma {:induction false} FramesDrainNothing(fs: seq<Frame>)
    ensures Drain !in AllFrameSteps(fs)
    decreases |fs|
  {
    if fs != [] {
      FramesDrainNothing(fs[..|fs| - 1]);
    }
  }

  lemma {:induction false} DeliveredSame(s: Tracker, steps: seq<Step>)
    requires Drain !in steps
    ensures Exec(s, steps).delivered == s.delivered
    decreases |steps|
  {
    if steps != [] {
      assert steps[|steps| - 1] in steps;
      DeliveredSame(s, steps[..|steps| - 1]);
    }
  }

  lemma BatchIsRaised(s: Tracker, steps: seq<Step>, mid: Tracker, batch: seq<FlowEvent>, r: Round)
    requires s.events == [] && |s.slots| == MAX_FLOWS && mid == Exec(s, steps) && RoundSteps(r) == steps + [Drain]
    requires batch == mid.events && mid.delivered == s.delivered
    ensures batch == Raised(s, RoundSteps(r))
  {
    RoundDeliversAll(s, r);
    ExecConcat(s, steps, [Drain]);
    ExecOne(mid, Drain);
    assert s.delivered + batch == s.delivered + Raised(s, RoundSteps(r));
    assert batch == (s.delivered + batch)[|s.delivered|..];
    assert Raised(s, RoundSteps(r)) == (s.delivered + Raised(s, RoundSteps(r)))[|s.delivered|..];
  }
}
