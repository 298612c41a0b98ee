/**
 * The protocol collector as steps of two goroutines: capture, which counts
 * packets and appends records, and flush, which swaps the tables out and then
 * emits what it took. Every step is one critical section or one emitted event.
 */
module CollectorProtocol {
  import opened Modular
  import opened CollectorDecode

  /** Longest record list, and what an overlong one is cut back to. */
  const LIST_MAX: nat := 1000
  const LIST_KEEP: nat := 500

  /** A flow's aggregate; both counters are 64-bit. */
  datatype Agg = Agg(bytes: nat, packets: nat, syn: bool, fin: bool, rst: bool)

  datatype FlowOut = FlowOut(flow: Flow, bytes: nat, packets: nat)

  /**
   * The shared tables and the snapshot being emitted. `samples` holds the
   * samples counted since the last swap and `taken` those behind the
   * snapshot; these and the remaining fields only record the run's history.
   */
  datatype State<H, D> = State(flows: map<Flow, Agg>, snapshot: map<Flow, Agg>, http: seq<H>, dns: seq<D>,
                               out: seq<FlowOut>, samples: seq<Sample>, taken: seq<Sample>, past: seq<Sample>,
                               httpSince: seq<H>, dnsSince: seq<D>)

  datatype Step<H, D> =
    | Count(sample: Sample)
    | AddHttp(h: H)
    | AddDns(d: D)
    | Swap
    | Emit(flow: Flow)

  function Init<H, D>(): State<H, D> {
    State(map[], map[], [], [], [], [], [], [], [], [])
  }

  // ---------------------------------------------------------------------
  // Steps
  // ---------------------------------------------------------------------

  function FirstAgg(s: Sample): Agg {
    Agg(s.size % U64, 1, s.syn, s.fin, s.rst)
  }

  function Merge(a: Agg, s: Sample): Agg {
    Agg((a.bytes + s.size) % U64, (a.packets + 1) % U64, a.syn || s.syn, a.fin || s.fin, a.rst || s.rst)
  }

  function CountIn(flows: map<Flow, Agg>, s: Sample): map<Flow, Agg> {
    flows[s.flow := if s.flow in flows then Merge(flows[s.flow], s) else FirstAgg(s)]
  }

  function Append<T>(list: seq<T>, x: T): seq<T> {
    var longer := list + [x];
    if |longer| > LIST_MAX then longer[|longer| - LIST_KEEP..] else longer
  }

  /** One goroutine flushes, so a swap comes only after everything taken before has been emitted. */
  predicate Enabled<H, D>(s: State<H, D>, step: Step<H, D>) {
    match step
    case Swap => s.snapshot == map[]
    case Emit(flow) => flow in s.snapshot
    case _ => true
  }

  function Apply<H, D>(s: State<H, D>, step: Step<H, D>): State<H, D>
    requires Enabled(s, step)
  {
    match step
    case Count(x) => s.(flows := CountIn(s.flows, x), samples := s.samples + [x])
    case AddHttp(h) => s.(http := Append(s.http, h), httpSince := s.httpSince + [h])
    case AddDns(d) => s.(dns := Append(s.dns, d), dnsSince := s.dnsSince + [d])
    case Swap =>
      s.(flows := map[], snapshot := s.flows, http := [], dns := [],
         samples := [], taken := s.samples, past := s.past + s.taken, httpSince := [], dnsSince := [])
    case Emit(flow) =>
      s.(snapshot := s.snapshot - {flow},
         out := s.out + [FlowOut(flow, s.snapshot[flow].bytes, s.snapshot[flow].packets)])
  }

  predicate Runs<H, D>(s: State<H, D>, steps: seq<Step<H, D>>)
    decreases |steps|
  {
    steps == [] || (Enabled(s, steps[0]) && Runs(Apply(s, steps[0]), steps[1..]))
  }

  function Exec<H, D>(s: State<H, D>, steps: seq<Step<H, D>>): State<H, D>
    requires Runs(s, steps)
    decreases |steps|
  {
    if steps == [] then s else Exec(Apply(s, steps[0]), steps[1..])
  }

  // ---------------------------------------------------------------------
  // The table summarises the samples
  // ---------------------------------------------------------------------

  function Bytes(xs: seq<Sample>, f: Flow): nat {
    if xs == [] then 0 else Bytes(xs[..|xs| - 1], f) + if xs[|xs| - 1].flow == f then xs[|xs| - 1].size else 0
  }

  function Packets(xs: seq<Sample>, f: Flow): nat {
    if xs == [] then 0 else Packets(xs[..|xs| - 1], f) + if xs[|xs| - 1].flow == f then 1 else 0
  }

  datatype Flag = Syn | Fin | Rst

  predicate Carries(s: Sample, flag: Flag) {
    match flag
    case Syn => s.syn
    case Fin => s.fin
    case Rst => s.rst
  }

  /** Some packet of the flow carried the flag. */
  predicate Saw(xs: seq<Sample>, f: Flow, flag: Flag) {
    exists i | 0 <= i < |xs| :: xs[i].flow == f && Carries(xs[i], flag)
  }

  /** The aggregate is the 64-bit totals of the flow's samples and the flags any of them had. */
  ghost predicate IsTotal(a: Agg, xs: seq<Sample>, f: Flow) {
    HasTotals(a, xs, f) && HasFlags(a, xs, f)
  }

  predicate HasTotals(a: Agg, xs: seq<Sample>, f: Flow) {
    a.bytes == Bytes(xs, f) % U64 && a.packets == Packets(xs, f) % U64
  }

  predicate HasFlags(a: Agg, xs: seq<Sample>, f: Flow) {
    (a.syn <==> Saw(xs, f, Syn)) && (a.fin <==> Saw(xs, f, Fin)) && (a.rst <==> Saw(xs, f, Rst))
  }

  /** Exactly the flows seen have an entry, and it is their total. */
  ghost predicate Summarises(m: map<Flow, Agg>, xs: seq<Sample>, f: Flow) {
    (f in m <==> Packets(xs, f) > 0) && (f in m ==> IsTotal(m[f], xs, f))
  }

  lemma {:induction false} NothingSeen(xs: seq<Sample>, f: Flow, flag: Flag)
    requires Packets(xs, f) == 0
    ensures Bytes(xs, f) == 0 && !Saw(xs, f, flag)
    decreases |xs|
  {
    if xs != [] {
      NothingSeen(xs[..|xs| - 1], f, flag);
      forall i | 0 <= i < |xs|
        ensures !(xs[i].flow == f && Carries(xs[i], flag))
      {
        assert i < |xs| - 1 ==> xs[..|xs| - 1][i] == xs[i];
      }
    }
  }

  lemma SawSnoc(xs: seq<Sample>, s: Sample, f: Flow, flag: Flag)
    ensures Saw(xs + [s], f, flag) <==> Saw(xs, f, flag) || (s.flow == f && Carries(s, flag))
  {
    var ys := xs + [s];
    if Saw(xs, f, flag) {
      var i :| 0 <= i < |xs| && xs[i].flow == f && Carries(xs[i], flag);
      assert ys[i] == xs[i];
    }
    if s.flow == f && Carries(s, flag) {
      assert ys[|xs|] == s;
    }
  }

  lemma TotalsSnoc(xs: seq<Sample>, s: Sample, f: Flow)
    ensures Bytes(xs + [s], f) == Bytes(xs, f) + if s.flow == f then s.size else 0
    ensures Packets(xs + [s], f) == Packets(xs, f) + if s.flow == f then 1 else 0
  {
    assert (xs + [s])[..|xs|] == xs;
  }

  lemma FlagsSnoc(xs: seq<Sample>, s: Sample, f: Flow)
    ensures Saw(xs + [s], f, Syn) <==> Saw(xs, f, Syn) || (s.flow == f && s.syn)
    ensures Saw(xs + [s], f, Fin) <==> Saw(xs, f, Fin) || (s.flow == f && s.fin)
    ensures Saw(xs + [s], f, Rst) <==> Saw(xs, f, Rst) || (s.flow == f && s.rst)
  {
    SawSnoc(xs, s, f, Syn);
    SawSnoc(xs, s, f, Fin);
    SawSnoc(xs, s, f, Rst);
  }

  lemma MergeIsTotal(a: Agg, xs: seq<Sample>, s: Sample)
    requires IsTotal(a, xs, s.flow)
    ensures IsTotal(Merge(a, s), xs + [s], s.flow)
  {
    assert HasTotals(Merge(a, s), xs + [s], s.flow) by {
      TotalsSnoc(xs, s, s.flow);
      AddModulo(Bytes(xs, s.flow), s.size);
      AddModulo(Packets(xs, s.flow), 1);
    }
    assert HasFlags(Merge(a, s), xs + [s], s.flow) by {
      FlagsSnoc(xs, s, s.flow);
    }
  }

  lemma FirstIsTotal(xs: seq<Sample>, s: Sample)
    requires Packets(xs, s.flow) == 0
    ensures IsTotal(FirstAgg(s), xs + [s], s.flow)
  {
    NothingSeen(xs, s.flow, Syn);
    NothingSeen(xs, s.flow, Fin);
    NothingSeen(xs, s.flow, Rst);
    TotalsSnoc(xs, s, s.flow);
    FlagsSnoc(xs, s, s.flow);
  }

  lemma OtherIsTotal(a: Agg, xs: seq<Sample>, s: Sample, f: Flow)
    requires IsTotal(a, xs, f) && f != s.flow
    ensures IsTotal(a, xs + [s], f)
  {
    TotalsSnoc(xs, s, f);
    FlagsSnoc(xs, s, f);
  }

  lemma CountSummarises(flows: map<Flow, Agg>, xs: seq<Sample>, s: Sample, f: Flow)
    requires Summarises(flows, xs, f)
    ensures Summarises(CountIn(flows, s), xs + [s], f)
  {
    TotalsSnoc(xs, s, f);
    if f != s.flow {
      if f in flows {
        OtherIsTotal(flows[f], xs, s, f);
      }
    } else if f in flows {
      MergeIsTotal(flows[f], xs, s);
    } else {
      FirstIsTotal(xs, s);
    }
  }

  // ---------------------------------------------------------------------
  // Conservation
  // ---------------------------------------------------------------------

  function OutBytes(out: seq<FlowOut>, f: Flow): nat {
    if out == [] then 0
    else OutBytes(out[..|out| - 1], f) + if out[|out| - 1].flow == f then out[|out| - 1].bytes else 0
  }

  function OutPackets(out: seq<FlowOut>, f: Flow): nat {
    if out == [] then 0
    else OutPackets(out[..|out| - 1], f) + if out[|out| - 1].flow == f then out[|out| - 1].packets else 0
  }

  function TableBytes(m: map<Flow, Agg>, f: Flow): nat {
    if f in m then m[f].bytes else 0
  }

  function TablePackets(m: map<Flow, Agg>, f: Flow): nat {
    if f in m then m[f].packets else 0
  }

  /** For one flow: the table holds its samples since the last swap, and what was taken before is out or on its way. */
  ghost predicate Inv<H, D>(s: State<H, D>, f: Flow) {
    Summarises(s.flows, s.samples, f) && SentAll(s, f)
  }

  /** What was taken from the table before is out or on its way. */
  ghost predicate SentAll<H, D>(s: State<H, D>, f: Flow) {
    && Congruent(SentBytes(s, f), Bytes(s.past + s.taken, f))
    && Congruent(SentPackets(s, f), Packets(s.past + s.taken, f))
  }

  /** What has left the table for good: emitted, or waiting in the snapshot. */
  function SentBytes<H, D>(s: State<H, D>, f: Flow): nat {
    OutBytes(s.out, f) + TableBytes(s.snapshot, f)
  }

  function SentPackets<H, D>(s: State<H, D>, f: Flow): nat {
    OutPackets(s.out, f) + TablePackets(s.snapshot, f)
  }

  lemma TableHoldsTotals(m: map<Flow, Agg>, xs: seq<Sample>, f: Flow)
    requires Summarises(m, xs, f)
    ensures Congruent(TableBytes(m, f), Bytes(xs, f)) && Congruent(TablePackets(m, f), Packets(xs, f))
  {
    CongruentResidue(Bytes(xs, f));
    CongruentResidue(Packets(xs, f));
    if f !in m {
      NothingSeen(xs, f, Syn);
    }
  }

  lemma {:induction false} TotalsConcat(a: seq<Sample>, b: seq<Sample>, f: Flow)
    ensures Bytes(a + b, f) == Bytes(a, f) + Bytes(b, f) && Packets(a + b, f) == Packets(a, f) + Packets(b, f)
    decreases |b|
  {
    if b == [] {
      assert a + b == a;
    } else {
      TotalsConcat(a, b[..|b| - 1], f);
      assert (a + b)[..|a| + |b| - 1] == a + b[..|b| - 1];
    }
  }

  lemma SwapKeepsInv<H, D>(s: State<H, D>, f: Flow)
    requires Inv(s, f) && s.snapshot == map[]
    ensures Inv(Apply(s, Swap), f)
  {
    var s', before := Apply(s, Swap), s.past + s.taken;
    TableHoldsTotals(s.flows, s.samples, f);
    TotalsConcat(before, s.samples, f);
    CongruentTotal(SentBytes(s, f), Bytes(before, f), TableBytes(s.flows, f), Bytes(s.samples, f),
                   SentBytes(s', f), Bytes(before + s.samples, f));
    CongruentTotal(SentPackets(s, f), Packets(before, f), TablePackets(s.flows, f), Packets(s.samples, f),
                   SentPackets(s', f), Packets(before + s.samples, f));
  }

  lemma OutSnoc(out: seq<FlowOut>, x: FlowOut, f: Flow)
    ensures OutBytes(out + [x], f) == OutBytes(out, f) + if x.flow == f then x.bytes else 0
    ensures OutPackets(out + [x], f) == OutPackets(out, f) + if x.flow == f then x.packets else 0
  {
    assert (out + [x])[..|out|] == out;
  }

  lemma EmitKeepsInv<H, D>(s: State<H, D>, g: Flow, f: Flow)
    requires Inv(s, f) && g in s.snapshot
    ensures Inv(Apply(s, Emit(g)), f)
  {
    var x := FlowOut(g, s.snapshot[g].bytes, s.snapshot[g].packets);
    OutSnoc(s.out, x, f);
    var rest := s.snapshot - {g};
    assert f in rest <==> f in s.snapshot && f != g;
    assert SentBytes(Apply(s, Emit(g)), f) == SentBytes(s, f) && SentPackets(Apply(s, Emit(g)), f) == SentPackets(s, f);
  }

  lemma CountKeepsInv<H, D>(s: State<H, D>, x: Sample, f: Flow)
    requires Inv(s, f)
    ensures Inv(Apply(s, Count(x)), f)
  {
    CountSummarises(s.flows, s.samples, x, f);
    SentSame(s, Apply(s, Count(x)), f);
  }

  /** A step that leaves the snapshot and what was emitted alone keeps what was sent. */
  lemma SentSame<H, D>(s: State<H, D>, s': State<H, D>, f: Flow)
    requires SentAll(s, f)
    requires s'.out == s.out && s'.snapshot == s.snapshot && s'.past == s.past && s'.taken == s.taken
    ensures SentAll(s', f)
  {
  }

  lemma StepKeepsInv<H, D>(s: State<H, D>, step: Step<H, D>, f: Flow)
    requires Inv(s, f) && Enabled(s, step)
    ensures Inv(Apply(s, step), f)
  {
    match step
    case Count(x) => CountKeepsInv(s, x, f);
    case AddHttp(_) => SentSame(s, Apply(s, step), f);
    case AddDns(_) => SentSame(s, Apply(s, step), f);
    case Swap => SwapKeepsInv(s, f);
    case Emit(g) => EmitKeepsInv(s, g, f);
  }

  lemma {:induction false} RunKeepsInv<H, D>(s: State<H, D>, steps: seq<Step<H, D>>, f: Flow)
    requires Inv(s, f) && Runs(s, steps)
    ensures Inv(Exec(s, steps), f)
    decreases |steps|
  {
    if steps != [] {
      StepKeepsInv(s, steps[0], f);
      RunKeepsInv(Apply(s, steps[0]), steps[1..], f);
    }
  }

  /** Every sample a run counts, in order. */
  function Counted<H, D>(steps: seq<Step<H, D>>): seq<Sample> {
    if steps == [] then []
    else (if steps[0].Count? then [steps[0].sample] else []) + Counted(steps[1..])
  }

  function History<H, D>(s: State<H, D>): seq<Sample> {
    s.past + s.taken + s.samples
  }

  lemma {:induction false} RunRecords<H, D>(s: State<H, D>, steps: seq<Step<H, D>>)
    requires Runs(s, steps)
    ensures History(Exec(s, steps)) == History(s) + Counted(steps)
    decreases |steps|
  {
    if steps == [] {
      assert History(s) + [] == History(s);
    } else {
      var s' := Apply(s, steps[0]);
      StepRecords(s, steps[0]);
      RunRecords(s', steps[1..]);
      var first := if steps[0].Count? then [steps[0].sample] else [];
      assert (History(s) + first) + Counted(steps[1..]) == History(s) + (first + Counted(steps[1..]));
    }
  }

  lemma StepRecords<H, D>(s: State<H, D>, step: Step<H, D>)
    requires Enabled(s, step)
    ensures History(Apply(s, step)) == History(s) + if step.Count? then [step.sample] else []
  {
    assert History(s) + [] == History(s);
    match step
    case Count(x) =>
      assert s.past + s.taken + (s.samples + [x]) == (s.past + s.taken + s.samples) + [x];
    case Swap =>
      assert (s.past + s.taken) + s.samples + [] == s.past + s.taken + s.samples;
    case _ =>
  }

  /** What is out, on its way and in the table adds up to `xs`, for one flow, modulo 2^64. */
  ghost predicate AddsUpTo<H, D>(s: State<H, D>, f: Flow, xs: seq<Sample>) {
    && Congruent(SentBytes(s, f) + TableBytes(s.flows, f), Bytes(xs, f))
    && Congruent(SentPackets(s, f) + TablePackets(s.flows, f), Packets(xs, f))
  }

  lemma AddUp<H, D>(s: State<H, D>, f: Flow)
    requires Inv(s, f)
    ensures AddsUpTo(s, f, History(s))
  {
    var before := s.past + s.taken;
    TableHoldsTotals(s.flows, s.samples, f);
    TotalsConcat(before, s.samples, f);
    CongruentTotal(SentBytes(s, f), Bytes(before, f), TableBytes(s.flows, f), Bytes(s.samples, f),
                   SentBytes(s, f) + TableBytes(s.flows, f), Bytes(before + s.samples, f));
    CongruentTotal(SentPackets(s, f), Packets(before, f), TablePackets(s.flows, f), Packets(s.samples, f),
                   SentPackets(s, f) + TablePackets(s.flows, f), Packets(before + s.samples, f));
  }

  /**
   * In every interleaving of captures and flushes, for every flow, the bytes
   * and packets emitted plus those waiting to be emitted plus those in the
   * table are those of all packets counted, modulo 2^64; and the table holds
   * exactly the totals and flags of the packets since the last swap.
   */
  lemma EveryRunConserves<H, D>(steps: seq<Step<H, D>>, f: Flow)
    requires Runs(Init<H, D>(), steps)
    ensures AddsUpTo(Exec(Init<H, D>(), steps), f, Counted(steps))
    ensures Summarises(Exec(Init<H, D>(), steps).flows, Exec(Init<H, D>(), steps).samples, f)
  {
    var s := Exec(Init<H, D>(), steps);
    RunKeepsInv(Init<H, D>(), steps, f);
    AddUp(s, f);
    RunRecords(Init<H, D>(), steps);
    assert History(s) == Counted(steps);
  }

  // ---------------------------------------------------------------------
  // The record lists
  // ---------------------------------------------------------------------

  /** How many records a list holds after `n` appends. */
  function KeptLength(n: nat): nat {
    if n <= LIST_MAX then n else LIST_KEEP + (n - LIST_MAX - 1) % 501
  }

  /** The list is the end of `since`, of exactly the length the cuts leave. */
  ghost predicate IsRecent<T>(list: seq<T>, since: seq<T>) {
    |list| == KeptLength(|since|) <= |since| && list == since[|since| - |list|..]
  }

  lemma KeptLengthStep(n: nat)
    ensures KeptLength(n) <= LIST_MAX
    ensures KeptLength(n) < LIST_MAX ==> KeptLength(n + 1) == KeptLength(n) + 1
    ensures KeptLength(n) == LIST_MAX ==> KeptLength(n + 1) == LIST_KEEP
  {
    if n > LIST_MAX {
      NextResidue(n - LIST_MAX - 1);
    }
  }

  lemma NextResidue(k: nat)
    ensures (k + 1) % 501 == if k % 501 == 500 then 0 else k % 501 + 1
  {
  }

  lemma AppendIsRecent<T>(list: seq<T>, since: seq<T>, x: T)
    requires IsRecent(list, since)
    ensures IsRecent(Append(list, x), since + [x])
  {
    KeptLengthStep(|since|);
    var longer := list + [x];
    assert longer == (since + [x])[|since| - |list|..];
  }

  lemma {:induction false} RunKeepsRecent<H, D>(s: State<H, D>, steps: seq<Step<H, D>>)
    requires Runs(s, steps) && IsRecent(s.http, s.httpSince) && IsRecent(s.dns, s.dnsSince)
    ensures var s' := Exec(s, steps); IsRecent(s'.http, s'.httpSince) && IsRecent(s'.dns, s'.dnsSince)
    decreases |steps|
  {
    if steps != [] {
      match steps[0] {
        case AddHttp(h) => AppendIsRecent(s.http, s.httpSince, h);
        case AddDns(d) => AppendIsRecent(s.dns, s.dnsSince, d);
        case _ =>
      }
      RunKeepsRecent(Apply(s, steps[0]), steps[1..]);
    }
  }

  /** All records up to 1000 of them; of more, between 500 and 1000 of the latest. */
  ghost predicate HoldsLatest<T>(list: seq<T>, since: seq<T>) {
    && |list| <= |since| && list == since[|since| - |list|..]
    && |list| <= LIST_MAX
    && (|since| <= LIST_MAX ==> list == since)
    && (|since| > LIST_MAX ==> |list| >= LIST_KEEP)
  }

  lemma RecentHoldsLatest<T>(list: seq<T>, since: seq<T>)
    requires IsRecent(list, since)
    ensures HoldsLatest(list, since)
  {
    KeptLengthStep(|since|);
  }

  /** Both record lists always hold the latest records since the last flush. */
  lemma ListsHoldTheLatest<H, D>(steps: seq<Step<H, D>>)
    requires Runs(Init<H, D>(), steps)
    ensures var s := Exec(Init<H, D>(), steps);
            && IsRecent(s.http, s.httpSince) && IsRecent(s.dns, s.dnsSince)
            && HoldsLatest(s.http, s.httpSince) && HoldsLatest(s.dns, s.dnsSince)
  {
    RunKeepsRecent(Init<H, D>(), steps);
    var s := Exec(Init<H, D>(), steps);
    RecentHoldsLatest(s.http, s.httpSince);
    RecentHoldsLatest(s.dns, s.dnsSince);
  }
}
