/**
 * The flow tracker over whole runs: slot table, event buffer and ageing, with
 * a record of every event that left the buffer or found it full.
 */
module FlowRuns {
  import opened Modular
  import opened FlowTable

  datatype FlowEvent = FlowEvent(at: nat, key: Key, bytes: nat)

  /** The tracker; `delivered` and `lost` only record the run's history. */
  datatype Tracker = Tracker(slots: seq<Slot>, activeCount: int, events: seq<FlowEvent>,
                             delivered: seq<FlowEvent>, lost: seq<FlowEvent>)

  datatype Step =
    | Touch(key: Key, input: Input, ts: nat)
    | Drain
    | Age(maxAge: nat, ts: nat)

  const NO_KEY := Key(0, 0, 0, 0, 0, 0)

  /** A slot as allocated: all zero. */
  const BLANK := Slot(NO_KEY, false, 0, 0, 0, 0, 0, 0, 0)

  function Create(n: nat): Tracker {
    Tracker(seq(n, _ => BLANK), 0, [], [], [])
  }

  // ---------------------------------------------------------------------
  // Steps
  // ---------------------------------------------------------------------

  /** The event an input to slot `r` gives rise to. */
  function EventFor(r: Slot, x: Input, ts: nat): seq<FlowEvent> {
    match x
    case Packet(size) => [FlowEvent(ts, r.key, size)]
    case Reading(_, _) => if Gain(r, x) > 0 then [FlowEvent(ts, r.key, Gain(r, x))] else []
    case Segment(_, _, _) => []
  }

  /** The buffer takes events while it has room: two per slot. */
  function Emit(s: Tracker, evs: seq<FlowEvent>): Tracker {
    if |s.events| + |evs| <= 2 * |s.slots| then s.(events := s.events + evs) else s.(lost := s.lost + evs)
  }

  /** The slot a touch of `key` absorbs its input into. */
  function Before(s: Tracker, key: Key): Slot
    requires Probe(s.slots, key) < |s.slots|
  {
    s.slots[Probe(s.slots, key)].(key := key, active := true)
  }

  function DoTouch(s: Tracker, key: Key, x: Input, ts: nat): Tracker {
    var i := Probe(s.slots, key);
    if i == |s.slots| then s
    else
      Emit(s.(slots := s.slots[i := Absorb(Before(s, key), x, ts)],
              activeCount := s.activeCount + if s.slots[i].active then 0 else 1),
           EventFor(Before(s, key), x, ts))
  }

  predicate IsStale(r: Slot, maxAge: nat, ts: nat) {
    r.active && r.lastSeen > 0 && WrapSub(ts, r.lastSeen) > maxAge
  }

  function Aged(rs: seq<Slot>, maxAge: nat, ts: nat): (r: seq<Slot>)
    ensures |r| == |rs|
    ensures forall i | 0 <= i < |rs| :: r[i] == if IsStale(rs[i], maxAge, ts) then rs[i].(active := false) else rs[i]
  {
    if rs == [] then []
    else
      var n := |rs| - 1;
      Aged(rs[..n], maxAge, ts) + [if IsStale(rs[n], maxAge, ts) then rs[n].(active := false) else rs[n]]
  }

  function Apply(s: Tracker, step: Step): Tracker {
    match step
    case Touch(key, x, ts) => DoTouch(s, key, x, ts)
    case Drain => s.(events := [], delivered := s.delivered + s.events)
    case Age(maxAge, ts) =>
      var slots := Aged(s.slots, maxAge, ts);
      s.(slots := slots, activeCount := s.activeCount - (NumActive(s.slots) - NumActive(slots)))
  }

  function Exec(s: Tracker, steps: seq<Step>): Tracker {
    if steps == [] then s else Apply(Exec(s, steps[..|steps| - 1]), steps[|steps| - 1])
  }

  // ---------------------------------------------------------------------
  // The table stays a bounded map
  // ---------------------------------------------------------------------

  ghost predicate Consistent(s: Tracker) {
    KeysDistinct(s.slots) && s.activeCount == NumActive(s.slots) && |s.events| <= 2 * |s.slots|
  }

  lemma AbsorbKeepsKey(r: Slot, x: Input, ts: nat)
    ensures Absorb(r, x, ts).key == r.key && Absorb(r, x, ts).active == r.active
  {
  }

  /** A touch that finds a slot writes the flow's absorbed input under its key, and nothing else. */
  lemma TouchRefinesMap(s: Tracker, key: Key, x: Input, ts: nat)
    requires Consistent(s)
    ensures Consistent(DoTouch(s, key, x, ts))
    ensures if Probe(s.slots, key) < |s.slots|
            then Flows(DoTouch(s, key, x, ts).slots) == Flows(s.slots)[key := Absorb(Before(s, key), x, ts)]
            else DoTouch(s, key, x, ts) == s
  {
    if Probe(s.slots, key) < |s.slots| {
      AbsorbKeepsKey(Before(s, key), x, ts);
      StoreRefinesMap(s.slots, key, Absorb(Before(s, key), x, ts));
    }
  }

  /**
   * A touch is refused exactly when the table is full of other flows; a known
   * flow goes on from its own slot, a new one from whatever its free slot held.
   */
  lemma TouchFindsSlot(s: Tracker, key: Key)
    requires Consistent(s)
    ensures Probe(s.slots, key) == |s.slots| <==> key !in Flows(s.slots) && s.activeCount == |s.slots|
    ensures key in Flows(s.slots) ==> Probe(s.slots, key) < |s.slots| && Before(s, key) == Flows(s.slots)[key]
    ensures key !in Flows(s.slots) && Probe(s.slots, key) < |s.slots| ==> !s.slots[Probe(s.slots, key)].active
  {
    ProbeFailsIff(s.slots, key);
    FullIffCount(s.slots);
    FlowsAt(s.slots, key);
    if Has(s.slots, key) {
      ProbeFindsKey(s.slots, key);
    }
  }

  lemma AgeKeepsConsistent(s: Tracker, maxAge: nat, ts: nat)
    requires Consistent(s)
    ensures Consistent(Apply(s, Age(maxAge, ts)))
  {
  }

  lemma {:induction false} RunKeepsConsistent(s: Tracker, steps: seq<Step>)
    requires Consistent(s)
    ensures Consistent(Exec(s, steps))
    decreases |steps|
  {
    if steps != [] {
      var n := |steps| - 1;
      RunKeepsConsistent(s, steps[..n]);
      var mid := Exec(s, steps[..n]);
      match steps[n]
      case Touch(key, x, ts) => TouchRefinesMap(mid, key, x, ts);
      case Drain =>
      case Age(maxAge, ts) => AgeKeepsConsistent(mid, maxAge, ts);
    }
  }

  lemma {:induction false} NoneActive(rs: seq<Slot>)
    requires forall i | 0 <= i < |rs| :: !rs[i].active
    ensures NumActive(rs) == 0
    decreases |rs|
  {
    if rs != [] {
      NoneActive(rs[..|rs| - 1]);
    }
  }

  /** In every reachable state keys are distinct, the count is right and the buffer is within bounds. */
  lemma EveryRunConsistent(n: nat, steps: seq<Step>)
    ensures Consistent(Exec(Create(n), steps))
  {
    NoneActive(Create(n).slots);
    RunKeepsConsistent(Create(n), steps);
  }

  /** The steps' clock readings never go back, and stay below 2^64. */
  predicate Monotone(steps: seq<Step>, now: nat)
    decreases |steps|
  {
    now < U64 &&
    (steps == [] ||
     var n := |steps| - 1;
     match steps[n]
     case Touch(_, _, ts) => ts <= now && Monotone(steps[..n], ts)
     case Age(_, ts) => ts <= now && Monotone(steps[..n], ts)
     case Drain => Monotone(steps[..n], now))
  }

  ghost predicate SeenBy(rs: seq<Slot>, now: nat) {
    forall i | 0 <= i < |rs| :: rs[i].lastSeen <= now
  }

  lemma StepSeenBy(s: Tracker, step: Step, now: nat)
    requires SeenBy(s.slots, now) && (step.Touch? ==> step.ts <= now)
    ensures SeenBy(Apply(s, step).slots, now)
  {
    if step.Touch? && Probe(s.slots, step.key) < |s.slots| {
      assert Absorb(Before(s, step.key), step.input, step.ts).lastSeen <= now;
    }
  }

  lemma {:induction false} LastSeenIsPast(n: nat, steps: seq<Step>, now: nat)
    requires Monotone(steps, now)
    ensures SeenBy(Exec(Create(n), steps).slots, now)
    decreases |steps|
  {
    if steps != [] {
      var k := |steps| - 1;
      LastSeenIsPast(n, steps[..k], if steps[k].Drain? then now else steps[k].ts);
      StepSeenBy(Exec(Create(n), steps[..k]), steps[k], now);
    }
  }

  /** The flows ageing keeps: those seen within the limit, and those never seen. */
  ghost function Young(flows: map<Key, Slot>, maxAge: nat, now: nat): map<Key, Slot> {
    map k | k in flows && (flows[k].lastSeen == 0 || now - flows[k].lastSeen <= maxAge) :: flows[k]
  }

  /** One flow is the same in both maps, or in neither. */
  ghost predicate SameAt(a: map<Key, Slot>, b: map<Key, Slot>, k: Key) {
    (k in a <==> k in b) && (k in a ==> a[k] == b[k])
  }

  lemma AgedFlow(rs: seq<Slot>, maxAge: nat, now: nat, k: Key)
    requires KeysDistinct(rs) && SeenBy(rs, now) && KeysDistinct(Aged(rs, maxAge, now))
    ensures SameAt(Flows(Aged(rs, maxAge, now)), Young(Flows(rs), maxAge, now), k)
  {
    FlowsAt(rs, k);
    FlowsAt(Aged(rs, maxAge, now), k);
  }

  lemma SameEverywhere(a: map<Key, Slot>, b: map<Key, Slot>)
    requires forall k :: SameAt(a, b, k)
    ensures a == b
  {
    forall k
      ensures (k in a <==> k in b) && (k in a ==> a[k] == b[k])
    {
      assert SameAt(a, b, k);
    }
  }

  lemma AgedFlows(rs: seq<Slot>, maxAge: nat, now: nat)
    requires KeysDistinct(rs) && SeenBy(rs, now) && KeysDistinct(Aged(rs, maxAge, now))
    ensures Flows(Aged(rs, maxAge, now)) == Young(Flows(rs), maxAge, now)
  {
    forall k
      ensures SameAt(Flows(Aged(rs, maxAge, now)), Young(Flows(rs), maxAge, now), k)
    {
      AgedFlow(rs, maxAge, now, k);
    }
    SameEverywhere(Flows(Aged(rs, maxAge, now)), Young(Flows(rs), maxAge, now));
  }

  /** Under a clock that never goes back, ageing keeps exactly the young flows, unchanged. */
  lemma AgeRemovesExactlyTheOld(n: nat, steps: seq<Step>, maxAge: nat, now: nat)
    requires Monotone(steps, now)
    ensures Consistent(Exec(Create(n), steps)) && Consistent(Apply(Exec(Create(n), steps), Age(maxAge, now)))
    ensures Flows(Apply(Exec(Create(n), steps), Age(maxAge, now)).slots) ==
            Young(Flows(Exec(Create(n), steps).slots), maxAge, now)
  {
    EveryRunConsistent(n, steps);
    LastSeenIsPast(n, steps, now);
    AgeKeepsConsistent(Exec(Create(n), steps), maxAge, now);
    AgedFlows(Exec(Create(n), steps).slots, maxAge, now);
  }

  // ---------------------------------------------------------------------
  // Bytes are conserved
  // ---------------------------------------------------------------------

  function SlotBytes(rs: seq<Slot>): nat {
    if rs == [] then 0 else SlotBytes(rs[..|rs| - 1]) + rs[|rs| - 1].bytes
  }

  function EventBytes(evs: seq<FlowEvent>): nat {
    if evs == [] then 0 else EventBytes(evs[..|evs| - 1]) + evs[|evs| - 1].bytes
  }

  /** The bytes of every event ever raised: delivered, waiting, or lost to a full buffer. */
  function RaisedBytes(s: Tracker): nat {
    EventBytes(s.delivered) + EventBytes(s.events) + EventBytes(s.lost)
  }

  /** The slots together hold, modulo 2^64, the bytes of every event ever raised. */
  ghost predicate BytesConserved(s: Tracker) {
    Congruent(SlotBytes(s.slots), RaisedBytes(s))
  }

  lemma {:induction false} SlotBytesUpdate(rs: seq<Slot>, i: nat, r: Slot)
    requires i < |rs|
    ensures SlotBytes(rs[i := r]) == SlotBytes(rs) - rs[i].bytes + r.bytes
    decreases |rs|
  {
    var n := |rs| - 1;
    if i < n {
      SlotBytesUpdate(rs[..n], i, r);
      assert rs[i := r][..n] == rs[..n][i := r];
    } else {
      assert rs[i := r][..n] == rs[..n];
    }
  }

  lemma {:induction false} EventBytesConcat(a: seq<FlowEvent>, b: seq<FlowEvent>)
    ensures EventBytes(a + b) == EventBytes(a) + EventBytes(b)
    decreases |b|
  {
    if b == [] {
      assert a + b == a;
    } else {
      var n := |b| - 1;
      EventBytesConcat(a, b[..n]);
      assert (a + b)[..|a| + n] == a + b[..n];
    }
  }

  lemma {:induction false} SlotBytesSame(a: seq<Slot>, b: seq<Slot>)
    requires |a| == |b| && forall i | 0 <= i < |a| :: a[i].bytes == b[i].bytes
    ensures SlotBytes(a) == SlotBytes(b)
    decreases |a|
  {
    if a != [] {
      SlotBytesSame(a[..|a| - 1], b[..|b| - 1]);
    }
  }

  lemma AbsorbGains(r: Slot, x: Input, ts: nat)
    ensures Congruent(Absorb(r, x, ts).bytes - r.bytes, Gain(r, x))
  {
  }

  lemma EmitRaises(s: Tracker, evs: seq<FlowEvent>)
    ensures RaisedBytes(Emit(s, evs)) == RaisedBytes(s) + EventBytes(evs) && Emit(s, evs).slots == s.slots
  {
    EventBytesConcat(s.events, evs);
    EventBytesConcat(s.lost, evs);
  }

  /** An event stands under its flow's key and the time of its input, and carries what that gained. */
  lemma EventNames(r: Slot, x: Input, ts: nat)
    ensures |EventFor(r, x, ts)| == if x.Packet? || (x.Reading? && Gain(r, x) > 0) then 1 else 0
    ensures forall e | e in EventFor(r, x, ts) :: e == FlowEvent(ts, r.key, Gain(r, x))
  {
  }

  /** The event raised carries exactly the bytes gained. */
  lemma EventCarriesGain(r: Slot, x: Input, ts: nat)
    ensures EventBytes(EventFor(r, x, ts)) == Gain(r, x)
  {
    var evs := EventFor(r, x, ts);
    if |evs| == 1 {
      assert evs[..0] == [];
    }
  }

  lemma TouchConservesBytes(s: Tracker, key: Key, x: Input, ts: nat)
    requires BytesConserved(s)
    ensures BytesConserved(DoTouch(s, key, x, ts))
  {
    var i := Probe(s.slots, key);
    if i < |s.slots| {
      var r := Before(s, key);
      var r', evs := Absorb(r, x, ts), EventFor(r, x, ts);
      SlotBytesUpdate(s.slots, i, r');
      AbsorbGains(r, x, ts);
      EventCarriesGain(r, x, ts);
      CongruentSum(SlotBytes(s.slots), RaisedBytes(s), r'.bytes - r.bytes, Gain(r, x));
      EmitRaises(s.(slots := s.slots[i := r'], activeCount := s.activeCount + if s.slots[i].active then 0 else 1), evs);
    }
  }

  lemma {:induction false} RunConservesBytes(s: Tracker, steps: seq<Step>)
    requires BytesConserved(s)
    ensures BytesConserved(Exec(s, steps))
    decreases |steps|
  {
    if steps != [] {
      var n := |steps| - 1;
      RunConservesBytes(s, steps[..n]);
      var mid := Exec(s, steps[..n]);
      match steps[n]
      case Touch(key, x, ts) => TouchConservesBytes(mid, key, x, ts);
      case Drain => EventBytesConcat(mid.delivered, mid.events);
      case Age(maxAge, ts) => SlotBytesSame(mid.slots, Aged(mid.slots, maxAge, ts));
    }
  }

  /**
   * Over every run, through ageing and reuse of slots, the bytes held in the
   * slots equal, modulo 2^64, those of all events delivered, buffered or lost
   * to a full buffer.
   */
  lemma EveryRunConservesBytes(n: nat, steps: seq<Step>)
    ensures BytesConserved(Exec(Create(n), steps))
  {
    BlankBytes(Create(n).slots);
    RunConservesBytes(Create(n), steps);
  }

  lemma {:induction false} BlankBytes(rs: seq<Slot>)
    requires forall i | 0 <= i < |rs| :: rs[i].bytes == 0
    ensures SlotBytes(rs) == 0
    decreases |rs|
  {
    if rs != [] {
      BlankBytes(rs[..|rs| - 1]);
    }
  }
}
