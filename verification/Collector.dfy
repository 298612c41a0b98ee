/** The protocol collector on the heap: aggregates are objects that counting updates in place. */
module Collector {
  import opened Wrappers
  import opened Modular
  import opened Bytes
  import opened CollectorDecode
  import opened CollectorProtocol

  /** One flow's counters. */
  class Counter {
    var bytes: nat
    var packets: nat
    var syn: bool
    var fin: bool
    var rst: bool

    ghost predicate Shows(a: Agg)
      reads this
    {
      a == Agg(bytes, packets, syn, fin, rst)
    }

    constructor (s: Sample)
      ensures Shows(FirstAgg(s))
    {
      bytes, packets := s.size % U64, 1;
      syn, fin, rst := s.syn, s.fin, s.rst;
    }

    method Add(s: Sample)
      modifies this
      ensures Shows(Merge(Agg(old(bytes), old(packets), old(syn), old(fin), old(rst)), s))
    {
      bytes := (bytes + s.size) % U64;
      packets := (packets + 1) % U64;
      if s.syn {
        syn := true;
      }
      if s.fin {
        fin := true;
      }
      if s.rst {
        rst := true;
      }
    }
  }

  /** Every counter shows its flow's entry, and no two flows share one. */
  ghost predicate Holds(counters: map<Flow, Counter>, table: map<Flow, Agg>)
    reads counters.Values
  {
    && counters.Keys == table.Keys
    && (forall f | f in counters :: counters[f].Shows(table[f]))
    && (forall f, g | f in counters && g in counters && f != g :: counters[f] != counters[g])
  }

  /** Counting a packet: in place if its flow has a counter, else in a new one. */
  method Tally(counters: map<Flow, Counter>, ghost table: map<Flow, Agg>, s: Sample) returns (r: map<Flow, Counter>)
    requires Holds(counters, table)
    modifies counters.Values
    ensures Holds(r, CountIn(table, s))
    ensures forall f | f in r :: r[f] in counters.Values || fresh(r[f])
  {
    r := counters;
    if s.flow in counters {
      var counter := counters[s.flow];
      assert counter in counters.Values;
      counter.Add(s);
    } else {
      var counter := new Counter(s);
      r := r[s.flow := counter];
    }
  }

  class Collector<H, D> {
    var flows: map<Flow, Counter>
    var httpReqs: seq<H>
    var dnsQs: seq<D>
    var snapshot: map<Flow, Counter>
    ghost var state: State<H, D>

    /** The tables show the protocol's state; the table being filled and the snapshot share no counter. */
    ghost predicate Valid()
      reads this, flows.Values, snapshot.Values
    {
      && Holds(flows, state.flows) && Holds(snapshot, state.snapshot)
      && (forall f, g | f in flows && g in snapshot :: flows[f] != snapshot[g])
      && httpReqs == state.http && dnsQs == state.dns
    }

    constructor ()
      ensures Valid() && state == Init<H, D>()
    {
      flows, httpReqs, dnsQs, snapshot := map[], [], [], map[];
      state := Init<H, D>();
    }

    /** The last critical section of processIPv4. */
    method CountSample(s: Sample)
      requires Valid()
      modifies this, flows.Values
      ensures Valid() && state == Apply(old(state), Count(s)) && snapshot == old(snapshot)
    {
      assert flows.Values !! snapshot.Values;
      var counters := Tally(flows, state.flows, s);
      assert Holds(snapshot, state.snapshot);
      flows := counters;
      state := Apply(state, Count(s));
    }

    method RecordHttp(h: H)
      requires Valid()
      modifies this
      ensures Valid() && state == Apply(old(state), AddHttp(h))
      ensures flows == old(flows) && snapshot == old(snapshot)
    {
      state := Apply(state, AddHttp(h));
      httpReqs := httpReqs + [h];
      if |httpReqs| > LIST_MAX {
        httpReqs := httpReqs[|httpReqs| - LIST_KEEP..];
      }
    }

    method RecordDns(d: D)
      requires Valid()
      modifies this
      ensures Valid() && state == Apply(old(state), AddDns(d))
      ensures flows == old(flows) && snapshot == old(snapshot)
    {
      state := Apply(state, AddDns(d));
      dnsQs := dnsQs + [d];
      if |dnsQs| > LIST_MAX {
        dnsQs := dnsQs[|dnsQs| - LIST_KEEP..];
      }
    }

    /** processIPv4 by a goroutine that nothing interrupts, with its two payload parsers. */
    method ProcessIPv4(payload: seq<Byte>, parseHttp: (seq<Byte>, Flow) -> Option<H>,
                       parseDns: (seq<Byte>, Flow) -> Option<D>)
      requires Valid()
      modifies this, flows.Values
      ensures Valid() && state == Processed(old(state), payload, parseHttp, parseDns)
      ensures snapshot == old(snapshot)
    {
      var sample := ReadPacket(payload);
      if sample.None? {
        return;
      }
      var flow := sample.value.flow;
      var httpPart, dnsPart := HttpPart(payload), DnsPart(payload);
      if httpPart.Some? {
        var http := parseHttp(httpPart.value, flow);
        if http.Some? {
          RecordHttp(http.value);
        }
      }
      if dnsPart.Some? {
        var dns := parseDns(dnsPart.value, flow);
        if dns.Some? {
          RecordDns(dns.value);
        }
      }
      CountSample(sample.value);
    }

    /** The critical section of flush: the counters move to the snapshot as they are. */
    method SwapTables() returns (http: seq<H>, dns: seq<D>)
      requires Valid() && state.snapshot == map[]
      modifies this
      ensures Valid() && state == Apply(old(state), Swap)
      ensures snapshot == old(flows) && http == old(httpReqs) && dns == old(dnsQs)
    {
      state := Apply(state, Swap);
      http, dns := httpReqs, dnsQs;
      snapshot, flows, httpReqs, dnsQs := flows, map[], [], [];
    }

    /** One event of the emission loop; `events` have gone out since `start`. */
    method EmitOne(f: Flow, ghost start: State<H, D>, ghost events: seq<FlowOut>) returns (event: FlowOut)
      requires Valid() && f in snapshot && Emitted(start, state, events)
      modifies this
      ensures Valid() && flows == old(flows) && snapshot == old(snapshot) - {f}
      ensures state == Apply(old(state), Emit(f)) && Emitted(start, state, events + [event])
    {
      EmittedOneMore(start, state, events, f);
      event := FlowOut(f, snapshot[f].bytes, snapshot[f].packets);
      state := Apply(state, Emit(f));
      snapshot := snapshot - {f};
    }

    /** The emission loop of flush: one event per flow of the snapshot, in any order. */
    method EmitAll() returns (events: seq<FlowOut>)
      requires Valid()
      modifies this
      ensures Valid() && flows == old(flows)
      ensures state.snapshot == map[] && Emitted(old(state), state, events)
    {
      events := [];
      ghost var start := state;
      assert start.out + [] == start.out;
      while snapshot != map[]
        invariant Valid() && flows == old(flows)
        invariant Emitted(start, state, events)
        decreases snapshot.Keys
      {
        var f :| f in snapshot;
        ghost var keys := snapshot.Keys;
        var event := EmitOne(f, start, events);
        assert snapshot.Keys == keys - {f};
        events := events + [event];
      }
    }
  }

  /** Nothing but the snapshot and the output has changed, and the output by `events`. */
  ghost predicate OnlyEmitted<H, D>(s: State<H, D>, s': State<H, D>, events: seq<FlowOut>) {
    s' == s.(snapshot := s'.snapshot, out := s.out + events)
  }

  lemma OnlyEmittedOneMore<H, D>(s: State<H, D>, s': State<H, D>, events: seq<FlowOut>, f: Flow)
    requires OnlyEmitted(s, s', events) && f in s'.snapshot
    ensures OnlyEmitted(s, Apply(s', Emit(f)), events + [OutOf(s'.snapshot, f)])
  {
    assert s.out + events + [OutOf(s'.snapshot, f)] == s.out + (events + [OutOf(s'.snapshot, f)]);
  }

  /** Only emission happened, and `events` are the part of the first snapshot that is no longer waiting. */
  ghost predicate Emitted<H, D>(s: State<H, D>, s': State<H, D>, events: seq<FlowOut>) {
    OnlyEmitted(s, s', events) && Emits(s.snapshot, s'.snapshot, events)
  }

  lemma EmittedOneMore<H, D>(s: State<H, D>, s': State<H, D>, events: seq<FlowOut>, f: Flow)
    requires Emitted(s, s', events) && f in s'.snapshot
    ensures Emitted(s, Apply(s', Emit(f)), events + [OutOf(s'.snapshot, f)])
  {
    OnlyEmittedOneMore(s, s', events, f);
    EmitsOneMore(s.snapshot, s'.snapshot, events, f);
  }

  ghost function OutOf(whole: map<Flow, Agg>, f: Flow): FlowOut
    requires f in whole
  {
    FlowOut(f, whole[f].bytes, whole[f].packets)
  }

  ghost function FlowsOf(events: seq<FlowOut>): seq<Flow> {
    if events == [] then [] else FlowsOf(events[..|events| - 1]) + [events[|events| - 1].flow]
  }

  /** `events` report each flow of `whole` that is not left in `rest`, once, with its totals. */
  ghost predicate Emits(whole: map<Flow, Agg>, rest: map<Flow, Agg>, events: seq<FlowOut>) {
    && (forall f | f in rest :: f in whole && rest[f] == whole[f])
    && (forall i | 0 <= i < |events| :: events[i].flow in whole && events[i] == OutOf(whole, events[i].flow))
    && multiset(FlowsOf(events)) + multiset(rest.Keys) == multiset(whole.Keys)
  }

  lemma EmitsOneMore(whole: map<Flow, Agg>, rest: map<Flow, Agg>, events: seq<FlowOut>, f: Flow)
    requires Emits(whole, rest, events) && f in rest
    ensures Emits(whole, rest - {f}, events + [OutOf(rest, f)])
  {
    var more := events + [OutOf(rest, f)];
    assert more[..|events|] == events;
    assert rest.Keys == (rest - {f}).Keys + {f};
    assert multiset(rest.Keys) == multiset((rest - {f}).Keys) + multiset{f};
    assert multiset(FlowsOf(events) + [f]) == multiset(FlowsOf(events)) + multiset{f};
  }

  /** The steps a packet makes, one after another. */
  ghost function Processed<H, D>(s: State<H, D>, payload: seq<Byte>, parseHttp: (seq<Byte>, Flow) -> Option<H>,
                                 parseDns: (seq<Byte>, Flow) -> Option<D>): State<H, D>
  {
    match DecodeIPv4(payload)
    case None => s
    case Some(sample) =>
      var http := if HttpPart(payload).None? then None else parseHttp(HttpPart(payload).value, sample.flow);
      var dns := if DnsPart(payload).None? then None else parseDns(DnsPart(payload).value, sample.flow);
      var s1 := if http.Some? then Apply(s, AddHttp(http.value)) else s;
      var s2 := if dns.Some? then Apply(s1, AddDns(dns.value)) else s1;
      Apply(s2, Count(sample))
  }
}
