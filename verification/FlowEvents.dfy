/**
 * The events of a run, whether or not the buffer has room for them: whose they
 * are, when they were raised, and what they carry.
 */
module FlowEvents {
  import opened Wrappers
  import opened Modular
  import opened FlowTable
  import opened FlowRuns
  import opened FlowTotals

  lemma ExecSnoc(s: Tracker, steps: seq<Step>, step: Step)
    ensures Exec(s, steps + [step]) == Apply(Exec(s, steps), step)
  {
    assert (steps + [step])[..|steps|] == steps;
  }

  lemma ExecConcatSnoc(s: Tracker, a: seq<Step>, b: seq<Step>, step: Step)
    requires Exec(s, a + b) == Exec(Exec(s, a), b)
    ensures Exec(s, (a + b) + [step]) == Exec(Exec(s, a), b + [step])
  {
    ExecSnoc(s, a + b, step);
    ExecSnoc(Exec(s, a), b, step);
  }

  ghost predicate ExecSplits(s: Tracker, a: seq<Step>, b: seq<Step>, ab: seq<Step>) {
    Exec(s, ab) == Exec(Exec(s, a), b)
  }

  lemma {:induction false} SplitRun(s: Tracker, a: seq<Step>, b: seq<Step>)
    ensures ExecSplits(s, a, b, a + b)
    decreases |b|
  {
    if b == [] {
      assert a + b == a;
    } else {
      var init, last := b[..|b| - 1], b[|b| - 1];
      assert init + [last] == b && (a + init) + [last] == a + b;
      SplitRun(s, a, init);
      ExecConcatSnoc(s, a, init, last);
      assert ExecSplits(s, a, init + [last], (a + init) + [last]);
    }
  }

  lemma ExecConcat(s: Tracker, a: seq<Step>, b: seq<Step>)
    ensures Exec(s, a + b) == Exec(Exec(s, a), b)
  {
    SplitRun(s, a, b);
    assert ExecSplits(s, a, b, a + b);
  }

  // ---------------------------------------------------------------------
  // Events raised, whether or not the buffer has room
  // ---------------------------------------------------------------------

  function RaisedBy(s: Tracker, step: Step): seq<FlowEvent> {
    if step.Touch? && Probe(s.slots, step.key) < |s.slots|
    then EventFor(Before(s, step.key), step.input, step.ts) else []
  }

  /** Every event a run raises, in order. */
  function Raised(s: Tracker, steps: seq<Step>): seq<FlowEvent> {
    if steps == [] then []
    else
      var n := |steps| - 1;
      Raised(s, steps[..n]) + RaisedBy(Exec(s, steps[..n]), steps[n])
  }

  lemma RaisedSnoc(s: Tracker, steps: seq<Step>, step: Step)
    ensures Raised(s, steps + [step]) == Raised(s, steps) + RaisedBy(Exec(s, steps), step)
  {
    assert (steps + [step])[..|steps|] == steps;
  }

  lemma SnocBoth<T>(all: seq<T>, a: seq<T>, b: seq<T>, all': seq<T>, b': seq<T>, last: seq<T>)
    requires all == a + b && all' == all + last && b' == b + last
    ensures all' == a + b'
  {
  }

  lemma RaisedConcatSnoc(s: Tracker, a: seq<Step>, b: seq<Step>, step: Step)
    requires Raised(s, a + b) == Raised(s, a) + Raised(Exec(s, a), b)
    ensures Raised(s, (a + b) + [step]) == Raised(s, a) + Raised(Exec(s, a), b + [step])
  {
    ExecConcat(s, a, b);
    RaisedSnoc(s, a + b, step);
    RaisedSnoc(Exec(s, a), b, step);
    SnocBoth(Raised(s, a + b), Raised(s, a), Raised(Exec(s, a), b),
             Raised(s, (a + b) + [step]), Raised(Exec(s, a), b + [step]), RaisedBy(Exec(s, a + b), step));
  }

  ghost predicate RaisedSplits(s: Tracker, a: seq<Step>, b: seq<Step>, ab: seq<Step>) {
    Raised(s, ab) == Raised(s, a) + Raised(Exec(s, a), b)
  }

  lemma {:induction false} RaisedConcat(s: Tracker, a: seq<Step>, b: seq<Step>)
    ensures RaisedSplits(s, a, b, a + b)
    decreases |b|
  {
    if b == [] {
      assert a + b == a;
      assert Raised(s, a) + [] == Raised(s, a);
    } else {
      var n := |b| - 1;
      var init, last := b[..n], b[n];
      assert init + [last] == b && (a + init) + [last] == a + b;
      RaisedConcat(s, a, init);
      RaisedConcatSnoc(s, a, init, last);
      assert RaisedSplits(s, a, init + [last], (a + init) + [last]);
    }
  }

  // ---------------------------------------------------------------------
  // What the buffer holds
  // ---------------------------------------------------------------------

  /** The events raised since the buffer was last emptied. */
  function SinceDrain(s: Tracker, steps: seq<Step>): seq<FlowEvent> {
    if steps == [] then s.events
    else
      var n := |steps| - 1;
      if steps[n].Drain? then [] else SinceDrain(s, steps[..n]) + RaisedBy(Exec(s, steps[..n]), steps[n])
  }

  function FirstOf<T>(s: seq<T>, n: nat): (r: seq<T>)
    ensures r <= s && |r| == if |s| <= n then |s| else n
  {
    if |s| <= n then s else s[..n]
  }

  lemma TouchBuffer(s: Tracker, step: Step, since: seq<FlowEvent>)
    requires s.events == FirstOf(since, 2 * |s.slots|) && !step.Drain?
    ensures Apply(s, step).events == FirstOf(since + RaisedBy(s, step), 2 * |s.slots|)
    ensures |Apply(s, step).slots| == |s.slots|
  {
    assert since + [] == since;
    if step.Touch? && Probe(s.slots, step.key) < |s.slots| {
      EventNames(Before(s, step.key), step.input, step.ts);
    }
  }

  /** In every run the buffer holds the first events since it was emptied, as many as fit; later ones are dropped. */
  lemma {:induction false} BufferHoldsFirst(s: Tracker, steps: seq<Step>)
    requires |s.events| <= 2 * |s.slots|
    ensures |Exec(s, steps).slots| == |s.slots|
    ensures Exec(s, steps).events == FirstOf(SinceDrain(s, steps), 2 * |s.slots|)
    decreases |steps|
  {
    if steps != [] {
      var n := |steps| - 1;
      BufferHoldsFirst(s, steps[..n]);
      if !steps[n].Drain? {
        TouchBuffer(Exec(s, steps[..n]), steps[n], SinceDrain(s, steps[..n]));
      }
    }
  }

  // ---------------------------------------------------------------------
  // Every event belongs to a step
  // ---------------------------------------------------------------------

  /** Step `j` touches the event's flow at the event's time, finds a slot, and gains the event's bytes. */
  predicate RaisedAt(s: Tracker, steps: seq<Step>, j: nat, e: FlowEvent)
    requires j < |steps|
  {
    var mid := Exec(s, steps[..j]);
    && steps[j].Touch? && steps[j].key == e.key && steps[j].ts == e.at && !steps[j].input.Segment?
    && Probe(mid.slots, e.key) < |mid.slots|
    && e.bytes == Gain(Before(mid, e.key), steps[j].input)
  }

  lemma RaisedByStep(s: Tracker, step: Step, e: FlowEvent)
    requires e in RaisedBy(s, step)
    ensures step.Touch? && step.key == e.key && step.ts == e.at && !step.input.Segment?
    ensures Probe(s.slots, e.key) < |s.slots| && e.bytes == Gain(Before(s, e.key), step.input)
  {
    EventNames(Before(s, step.key), step.input, step.ts);
  }

  lemma RaisedEarlier(s: Tracker, steps: seq<Step>, n: nat, j: nat, e: FlowEvent)
    requires j < n <= |steps| && RaisedAt(s, steps[..n], j, e)
    ensures RaisedAt(s, steps, j, e)
  {
    assert steps[..n][..j] == steps[..j];
  }

  /** In every run each event belongs to a step of its flow, at its time, that gained its bytes. */
  lemma {:induction false} RaisedBelongs(s: Tracker, steps: seq<Step>, e: FlowEvent) returns (j: nat)
    requires e in Raised(s, steps)
    ensures j < |steps| && RaisedAt(s, steps, j, e)
    decreases |steps|
  {
    var n := |steps| - 1;
    if e in Raised(s, steps[..n]) {
      j := RaisedBelongs(s, steps[..n], e);
      RaisedEarlier(s, steps, n, j, e);
    } else {
      j := n;
      RaisedByStep(Exec(s, steps[..n]), steps[n], e);
    }
  }

  // ---------------------------------------------------------------------
  // The events of one flow
  // ---------------------------------------------------------------------

  /** The events under one key, in order. */
  function Of(evs: seq<FlowEvent>, key: Key): seq<FlowEvent> {
    if evs == [] then []
    else
      var n := |evs| - 1;
      Of(evs[..n], key) + if evs[n].key == key then [evs[n]] else []
  }

  lemma {:induction false} OfConcat(a: seq<FlowEvent>, b: seq<FlowEvent>, key: Key)
    ensures Of(a + b, key) == Of(a, key) + Of(b, key)
    decreases |b|
  {
    if b == [] {
      assert a + b == a;
    } else {
      var n := |b| - 1;
      OfConcat(a, b[..n], key);
      assert (a + b)[..|a| + n] == a + b[..n];
    }
  }

  lemma OfOne(evs: seq<FlowEvent>, key: Key)
    requires |evs| <= 1
    ensures Of(evs, key) == if evs != [] && evs[0].key == key then evs else []
  {
    if |evs| == 1 {
      assert evs[..0] == [] && evs == [evs[0]];
    }
  }

  /** The stays of a flow that have ended, each when ageing freed its slot. */
  function PastStays(n: nat, steps: seq<Step>, key: Key): seq<Stay> {
    if steps == [] then []
    else
      var m := |steps| - 1;
      var before, after := StayOf(n, steps[..m], key), StayOf(n, steps, key);
      PastStays(n, steps[..m], key) + if before.Some? && after.None? then [before.value] else []
  }

  /** All stays of a flow, the present one last. */
  function Stays(n: nat, steps: seq<Step>, key: Key): seq<Stay> {
    var now := StayOf(n, steps, key);
    PastStays(n, steps, key) + if now.Some? then [now.value] else []
  }

  function StayEvents(t: Stay): seq<FlowEvent> {
    EventsOf(t.found, t.inputs)
  }

  /** The events of these stays, one stay after another. */
  function AllStayEvents(ts: seq<Stay>): seq<FlowEvent> {
    if ts == [] then [] else AllStayEvents(ts[..|ts| - 1]) + StayEvents(ts[|ts| - 1])
  }

  lemma AllStayEventsSnoc(ts: seq<Stay>, t: Stay)
    ensures AllStayEvents(ts + [t]) == AllStayEvents(ts) + StayEvents(t)
  {
    assert (ts + [t])[..|ts|] == ts;
  }

  lemma EventsOfSnoc(found: Slot, xs: seq<Stamped>, x: Stamped)
    ensures EventsOf(found, xs + [x]) == EventsOf(found, xs) + EventFor(Fold(found, xs), x.input, x.ts)
  {
    assert (xs + [x])[..|xs|] == xs;
  }

  lemma OwnEvents(r: Slot, x: Input, ts: nat, key: Key)
    ensures Of(EventFor(r, x, ts), key) == if r.key == key then EventFor(r, x, ts) else []
  {
    EventNames(r, x, ts);
    OfOne(EventFor(r, x, ts), key);
  }

  lemma OthersRaiseNone(s: Tracker, step: Step, key: Key)
    requires !(step.Touch? && step.key == key)
    ensures Of(RaisedBy(s, step), key) == []
  {
    if step.Touch? && Probe(s.slots, step.key) < |s.slots| {
      OwnEvents(Before(s, step.key), step.input, step.ts, key);
    }
  }

  lemma OwnRaised(s: Tracker, step: Step)
    requires step.Touch?
    ensures Of(RaisedBy(s, step), step.key) == RaisedBy(s, step)
  {
    if Probe(s.slots, step.key) < |s.slots| {
      OwnEvents(Before(s, step.key), step.input, step.ts, step.key);
    }
  }

  function Present(t: Option<Stay>): seq<Stay> {
    if t.Some? then [t.value] else []
  }

  lemma ExtendedStay(past: seq<Stay>, t: Stay, t': Stay, x: Stamped, evs: seq<FlowEvent>)
    requires t' == Stay(t.found, t.inputs + [x]) && evs == EventFor(Current(t), x.input, x.ts)
    ensures AllStayEvents(past + [t']) == AllStayEvents(past + [t]) + evs
  {
    AllStayEventsSnoc(past, t');
    AllStayEventsSnoc(past, t);
    EventsOfSnoc(t.found, t.inputs, x);
    assert AllStayEvents(past) + (StayEvents(t) + evs) == (AllStayEvents(past) + StayEvents(t)) + evs;
  }

  lemma BegunStay(past: seq<Stay>, r: Slot, x: Stamped, evs: seq<FlowEvent>)
    requires evs == EventFor(r, x.input, x.ts)
    ensures AllStayEvents(past + [Stay(r, [x])]) == AllStayEvents(past) + evs
  {
    AllStayEventsSnoc(past, Stay(r, [x]));
    EventsOfSnoc(r, [], x);
    assert [] + [x] == [x] && [] + evs == evs;
  }

  /** A touch that finds a slot adds its event to the present stay. */
  lemma TouchAddsEvents(past: seq<Stay>, t: Option<Stay>, t': Stay, x: Stamped, r: Slot)
    requires if t.Some? then t' == Stay(t.value.found, t.value.inputs + [x]) && r == Current(t.value)
             else t' == Stay(r, [x])
    ensures AllStayEvents(past + [t']) == AllStayEvents(past + Present(t)) + EventFor(r, x.input, x.ts)
  {
    if t.Some? {
      ExtendedStay(past, t.value, t', x, EventFor(r, x.input, x.ts));
    } else {
      assert past + [] == past;
      BegunStay(past, r, x, EventFor(r, x.input, x.ts));
    }
  }

  /** A touch of the flow: refused, or absorbed into the slot it goes on from. */
  lemma TouchStay(n: nat, steps: seq<Step>, step: Step, s: Tracker)
    requires step.Touch? && s == Exec(Create(n), steps)
    ensures var t, t' := StayOf(n, steps, step.key), StepStay(s, StayOf(n, steps, step.key), step, step.key);
            && (t'.None? <==> Probe(s.slots, step.key) == |s.slots|)
            && (t'.None? ==> t.None?)
            && (t.Some? ==> Probe(s.slots, step.key) < |s.slots| && Before(s, step.key) == Current(t.value))
  {
    RunFaithful(n, steps, step.key);
    TouchFindsSlot(s, step.key);
  }

  lemma StaysSnoc(n: nat, steps: seq<Step>, step: Step, key: Key)
    ensures var t := StayOf(n, steps, key);
            var t' := StepStay(Exec(Create(n), steps), t, step, key);
            && StayOf(n, steps + [step], key) == t'
            && Stays(n, steps + [step], key) ==
               PastStays(n, steps, key) + (if t.Some? && t'.None? then Present(t) else []) + Present(t')
  {
    assert (steps + [step])[..|steps|] == steps;
  }

  /** What one step adds to a flow's events, and to the events of its stays. */
  lemma StepEvents(n: nat, steps: seq<Step>, step: Step, key: Key)
    ensures AllStayEvents(Stays(n, steps + [step], key)) ==
            AllStayEvents(Stays(n, steps, key)) + Of(RaisedBy(Exec(Create(n), steps), step), key)
  {
    var s, t, past := Exec(Create(n), steps), StayOf(n, steps, key), PastStays(n, steps, key);
    var t' := StepStay(s, t, step, key);
    StaysSnoc(n, steps, step, key);
    assert past + [] == past && AllStayEvents(Stays(n, steps, key)) + [] == AllStayEvents(Stays(n, steps, key));
    if !(step.Touch? && step.key == key) {
      OthersRaiseNone(s, step, key);
      assert past + Present(t) + [] == past + Present(t);
    } else {
      OwnRaised(s, step);
      TouchStay(n, steps, step, s);
      if t'.Some? {
        TouchAddsEvents(past, t, t'.value, Stamped(step.input, step.ts), Before(s, key));
      }
    }
  }

  ghost predicate EventsMatch(n: nat, steps: seq<Step>, key: Key) {
    Of(Raised(Create(n), steps), key) == AllStayEvents(Stays(n, steps, key))
  }

  lemma EventsMatchOnward(n: nat, steps: seq<Step>, step: Step, key: Key)
    requires EventsMatch(n, steps, key)
    ensures EventsMatch(n, steps + [step], key)
  {
    StepEvents(n, steps, step, key);
    RaisedSnoc(Create(n), steps, step);
    OfConcat(Raised(Create(n), steps), RaisedBy(Exec(Create(n), steps), step), key);
  }

  /** In every run the events under a key are exactly those of that flow's stays, in order. */
  lemma {:induction false} EventsOfFlow(n: nat, steps: seq<Step>, key: Key)
    ensures EventsMatch(n, steps, key)
    decreases |steps|
  {
    if steps != [] {
      var init, last := steps[..|steps| - 1], steps[|steps| - 1];
      assert steps == init + [last];
      EventsOfFlow(n, init, key);
      EventsMatchOnward(n, init, last, key);
    }
  }

  /** What a stay is told: its packets' sizes and the rises of its queues. */
  function Account(t: Stay): nat {
    PacketSum(t.inputs) + Rises(t.found.prevRx, Readings(t.inputs, true)) +
    Rises(t.found.prevTx, Readings(t.inputs, false))
  }

  function AllAccounts(ts: seq<Stay>): nat {
    if ts == [] then 0 else AllAccounts(ts[..|ts| - 1]) + Account(ts[|ts| - 1])
  }

  lemma BothCongruent(bytes: int, found: int, a: int, b: int)
    requires Congruent(bytes, found + a) && Congruent(bytes, found + b)
    ensures Congruent(a, b)
  {
  }

  lemma StayEventBytes(t: Stay)
    ensures Congruent(EventBytes(StayEvents(t)), Account(t))
  {
    CountersMatchEvents(t.found, t.inputs);
    FoldBytes(t.found, t.inputs);
    BothCongruent(Fold(t.found, t.inputs).bytes, t.found.bytes, EventBytes(StayEvents(t)), Account(t));
  }

  lemma {:induction false} AllStayBytes(ts: seq<Stay>)
    ensures Congruent(EventBytes(AllStayEvents(ts)), AllAccounts(ts))
    decreases |ts|
  {
    if ts != [] {
      var init, last := ts[..|ts| - 1], ts[|ts| - 1];
      AllStayBytes(init);
      StayEventBytes(last);
      EventBytesConcat(AllStayEvents(init), StayEvents(last));
      CongruentTotal(EventBytes(AllStayEvents(init)), AllAccounts(init), EventBytes(StayEvents(last)), Account(last),
                     EventBytes(AllStayEvents(ts)), AllAccounts(ts));
    }
  }

  /**
   * In every run, for every key, the bytes of all events under that key are,
   * modulo 2^64, the packet sizes and queue rises of that flow's accepted
   * inputs.
   */
  lemma FlowEventBytes(n: nat, steps: seq<Step>, key: Key)
    ensures Congruent(EventBytes(Of(Raised(Create(n), steps), key)), AllAccounts(Stays(n, steps, key)))
  {
    EventsOfFlow(n, steps, key);
    AllStayBytes(Stays(n, steps, key));
  }
}
