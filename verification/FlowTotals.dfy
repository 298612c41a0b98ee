/**
 * What one flow's slot holds, in every run: its inputs since it took the slot,
 * on top of what earlier flows left there.
 */
module FlowTotals {
  import opened Wrappers
  import opened Modular
  import opened FlowTable
  import opened FlowRuns

  datatype Stamped = Stamped(input: Input, ts: nat)

  /** The inputs a run gives to one flow, in order. */
  function InputsOf(steps: seq<Step>, key: Key): seq<Stamped> {
    if steps == [] then []
    else
      var n := |steps| - 1;
      InputsOf(steps[..n], key) + InputOf(steps[n], key)
  }

  function InputOf(step: Step, key: Key): seq<Stamped> {
    if step.Touch? && step.key == key then [Stamped(step.input, step.ts)] else []
  }

  function Fold(r: Slot, xs: seq<Stamped>): Slot {
    if xs == [] then r
    else
      var last := xs[|xs| - 1];
      Absorb(Fold(r, xs[..|xs| - 1]), last.input, last.ts)
  }

  lemma FoldSnoc(r: Slot, xs: seq<Stamped>, x: Stamped)
    ensures Fold(r, xs + [x]) == Absorb(Fold(r, xs), x.input, x.ts)
  {
    assert (xs + [x])[..|xs|] == xs;
  }

  // ---------------------------------------------------------------------
  // A flow's stay in its slot
  // ---------------------------------------------------------------------

  /** What a flow found in the slot it took, already under its own key, and its inputs since. */
  datatype Stay = Stay(found: Slot, inputs: seq<Stamped>)

  function Current(t: Stay): Slot {
    Fold(t.found, t.inputs)
  }

  /** The flow's stay after a step in state `s`: ageing may end it, and a touch begins or extends it. */
  function StepStay(s: Tracker, t: Option<Stay>, step: Step, key: Key): Option<Stay> {
    match step
    case Drain => t
    case Age(maxAge, ts) => if t.Some? && IsStale(Current(t.value), maxAge, ts) then None else t
    case Touch(k, x, ts) =>
      if k != key then t
      else if t.Some? then Some(Stay(t.value.found, t.value.inputs + [Stamped(x, ts)]))
      else if Probe(s.slots, key) < |s.slots| then Some(Stay(Before(s, key), [Stamped(x, ts)]))
      else None
  }

  /** The flow's present stay, if it has a slot at the end of the run. */
  function StayOf(n: nat, steps: seq<Step>, key: Key): Option<Stay> {
    if steps == [] then None
    else
      var m := |steps| - 1;
      StepStay(Exec(Create(n), steps[..m]), StayOf(n, steps[..m], key), steps[m], key)
  }

  /** The flow is in the table exactly during its stay, and its slot is the fold of the stay's inputs. */
  ghost predicate Faithful(s: Tracker, t: Option<Stay>, key: Key) {
    && Consistent(s)
    && (key in Flows(s.slots) <==> t.Some?)
    && (t.Some? ==> Flows(s.slots)[key] == Current(t.value))
  }

  lemma TouchFaithful(s: Tracker, key: Key, x: Input, ts: nat, k: Key, t: Option<Stay>)
    requires Faithful(s, t, k)
    ensures Faithful(DoTouch(s, key, x, ts), StepStay(s, t, Touch(key, x, ts), k), k)
  {
    TouchRefinesMap(s, key, x, ts);
    TouchFindsSlot(s, key);
    if k == key && t.Some? {
      FoldSnoc(t.value.found, t.value.inputs, Stamped(x, ts));
    } else if k == key && Probe(s.slots, key) < |s.slots| {
      FoldSnoc(Before(s, key), [], Stamped(x, ts));
      assert [] + [Stamped(x, ts)] == [Stamped(x, ts)];
    }
  }

  /** Ageing takes a flow out exactly when its own slot is stale, whatever other flows lose theirs. */
  lemma AgeFaithful(s: Tracker, maxAge: nat, ts: nat, k: Key, t: Option<Stay>)
    requires Faithful(s, t, k)
    ensures Faithful(Apply(s, Age(maxAge, ts)), StepStay(s, t, Age(maxAge, ts), k), k)
  {
    AgeKeepsConsistent(s, maxAge, ts);
    FlowsAt(s.slots, k);
    FlowsAt(Aged(s.slots, maxAge, ts), k);
  }

  /** In every run, whatever other flows do and whichever of them are aged out. */
  lemma {:induction false} RunFaithful(n: nat, steps: seq<Step>, k: Key)
    ensures Faithful(Exec(Create(n), steps), StayOf(n, steps, k), k)
    decreases |steps|
  {
    if steps == [] {
      NoneActive(Create(n).slots);
      FlowsAt(Create(n).slots, k);
    } else {
      var m := |steps| - 1;
      RunFaithful(n, steps[..m], k);
      var s, t := Exec(Create(n), steps[..m]), StayOf(n, steps[..m], k);
      match steps[m]
      case Touch(key, x, ts) => TouchFaithful(s, key, x, ts, k, t);
      case Drain =>
      case Age(maxAge, ts) => AgeFaithful(s, maxAge, ts, k, t);
    }
  }

  ghost predicate EndsWith<T>(a: seq<T>, b: seq<T>) {
    |b| <= |a| && a[|a| - |b|..] == b
  }

  /** A stay's inputs are the last ones the run gave the flow. */
  lemma {:induction false} StayIsLatest(n: nat, steps: seq<Step>, key: Key)
    ensures StayOf(n, steps, key).Some? ==> EndsWith(InputsOf(steps, key), StayOf(n, steps, key).value.inputs)
    decreases |steps|
  {
    if steps != [] {
      var m := |steps| - 1;
      StayIsLatest(n, steps[..m], key);
      var all, x := InputsOf(steps[..m], key), InputOf(steps[m], key);
      assert all + [] == all;
      if StayOf(n, steps[..m], key).Some? {
        var own := StayOf(n, steps[..m], key).value.inputs;
        assert (all + x)[|all| - |own|..] == own + x;
      }
    }
  }

  /**
   * In every run a tracked flow's slot is exactly the fold of that flow's
   * latest inputs, those of its present stay, over what it found in the slot.
   */
  lemma TrackedFlowIsItsInputs(n: nat, steps: seq<Step>, key: Key)
    ensures KeysDistinct(Exec(Create(n), steps).slots)
    ensures key in Flows(Exec(Create(n), steps).slots) <==> StayOf(n, steps, key).Some?
    ensures StayOf(n, steps, key).Some? ==>
              var t := StayOf(n, steps, key).value;
              && Flows(Exec(Create(n), steps).slots)[key] == Fold(t.found, t.inputs)
              && EndsWith(InputsOf(steps, key), t.inputs)
  {
    RunFaithful(n, steps, key);
    StayIsLatest(n, steps, key);
  }

  // ---------------------------------------------------------------------
  // What a flow finds: all that earlier flows left in the slot
  // ---------------------------------------------------------------------

  /** The inputs a run stores in slot `i`, whichever flows they belong to. */
  function SlotInputs(n: nat, steps: seq<Step>, i: nat): seq<Stamped> {
    if steps == [] then []
    else
      var m := |steps| - 1;
      var s, step := Exec(Create(n), steps[..m]), steps[m];
      SlotInputs(n, steps[..m], i) +
      if step.Touch? && Probe(s.slots, step.key) == i < |s.slots| then [Stamped(step.input, step.ts)] else []
  }

  /** Equal but for whose slot it is. */
  predicate SameContents(a: Slot, b: Slot) {
    a.(key := b.key, active := b.active) == b
  }

  lemma AbsorbSame(a: Slot, b: Slot, x: Input, ts: nat)
    requires SameContents(a, b)
    ensures SameContents(Absorb(a, x, ts), Absorb(b, x, ts))
  {
  }

  /** In every run each slot holds all inputs ever stored in it: nothing is cleared between flows. */
  lemma {:induction false} SlotIsAllItsInputs(n: nat, steps: seq<Step>, i: nat)
    requires i < n
    ensures |Exec(Create(n), steps).slots| == n
    ensures SameContents(Exec(Create(n), steps).slots[i], Fold(BLANK, SlotInputs(n, steps, i)))
    decreases |steps|
  {
    if steps != [] {
      var m := |steps| - 1;
      SlotIsAllItsInputs(n, steps[..m], i);
      var s, step, xs := Exec(Create(n), steps[..m]), steps[m], SlotInputs(n, steps[..m], i);
      assert xs + [] == xs;
      if step.Touch? && Probe(s.slots, step.key) == i {
        FoldSnoc(BLANK, xs, Stamped(step.input, step.ts));
        AbsorbSame(Before(s, step.key), Fold(BLANK, xs), step.input, step.ts);
      }
    }
  }

  /** What a flow finds in the slot it takes is everything stored there before. */
  lemma ClaimFinds(n: nat, steps: seq<Step>, key: Key, x: Input, ts: nat)
    requires StayOf(n, steps, key).None? && Probe(Exec(Create(n), steps).slots, key) < n
    ensures |Exec(Create(n), steps).slots| == n
    ensures var i, t := Probe(Exec(Create(n), steps).slots, key), StayOf(n, steps + [Touch(key, x, ts)], key);
            && !Exec(Create(n), steps).slots[i].active
            && t.Some? && t.value.inputs == [Stamped(x, ts)]
            && SameContents(t.value.found, Fold(BLANK, SlotInputs(n, steps, i)))
  {
    var i := Probe(Exec(Create(n), steps).slots, key);
    SlotIsAllItsInputs(n, steps, i);
    RunFaithful(n, steps, key);
    TouchFindsSlot(Exec(Create(n), steps), key);
    assert (steps + [Touch(key, x, ts)])[..|steps|] == steps;
  }

  /** A table of one free slot gives it to the first flow that asks. */
  lemma OneSlotTouch(s: Tracker, r: Slot, key: Key, size: nat, ts: nat)
    requires s.slots == [r] && !r.active
    ensures DoTouch(s, key, Packet(size), ts).slots == [Absorb(r.(key := key, active := true), Packet(size), ts)]
  {
    assert FindKey(s.slots, key, 0) == 1 && FindFree(s.slots, 0) == 0;
  }

  /** Ageing frees the only slot of a table but leaves its 5 bytes in it. */
  lemma FreedSlot(a: Key)
    ensures Aged(DoTouch(Create(1), a, Packet(5), 1).slots, 3, 10) ==
            [BLANK.(key := a, bytes := 5, packets := 1, lastSeen := 1)]
  {
    OneSlotTouch(Create(1), BLANK, a, 5, 1);
  }

  /** The next flow goes on from them: its 7 become 12. */
  lemma FreedSlotKeepsItsBytes(a: Key, b: Key, s: Tracker)
    requires s.slots == Aged(DoTouch(Create(1), a, Packet(5), 1).slots, 3, 10)
    ensures DoTouch(s, b, Packet(7), 20).slots == [Slot(b, true, 12, 2, 20, 0, 0, 0, 0)]
  {
    FreedSlot(a);
    OneSlotTouch(s, BLANK.(key := a, bytes := 5, packets := 1, lastSeen := 1), b, 7, 20);
  }

  /** The slot's counters are within their fields. */
  predicate InWidth(r: Slot) {
    r.bytes < U64 && r.packets < U64 && r.seqExpected < U32 && r.retransmits < U32
  }

  lemma AbsorbInWidth(r: Slot, x: Input, ts: nat)
    requires InWidth(r)
    ensures InWidth(Absorb(r, x, ts))
  {
  }

  lemma {:induction false} FoldInWidth(r: Slot, xs: seq<Stamped>)
    requires InWidth(r)
    ensures InWidth(Fold(r, xs))
    decreases |xs|
  {
    if xs != [] {
      var n := |xs| - 1;
      FoldInWidth(r, xs[..n]);
      AbsorbInWidth(Fold(r, xs[..n]), xs[n].input, xs[n].ts);
    }
  }

  /** What a flow finds, and what it makes of it, stays within the fields in every run. */
  lemma {:induction false} StayInWidth(n: nat, steps: seq<Step>, key: Key)
    ensures StayOf(n, steps, key).Some? ==>
              InWidth(StayOf(n, steps, key).value.found) && InWidth(Current(StayOf(n, steps, key).value))
    decreases |steps|
  {
    if StayOf(n, steps, key).Some? {
      var m := |steps| - 1;
      StayInWidth(n, steps[..m], key);
      var s, before, t := Exec(Create(n), steps[..m]), StayOf(n, steps[..m], key), StayOf(n, steps, key).value;
      if before.None? {
        var i := Probe(s.slots, key);
        RunKeepsSize(n, steps[..m]);
        SlotIsAllItsInputs(n, steps[..m], i);
        FoldInWidth(BLANK, SlotInputs(n, steps[..m], i));
      } else {
        assert t.found == before.value.found;
      }
      FoldInWidth(t.found, t.inputs);
    }
  }

  lemma {:induction false} RunKeepsSize(n: nat, steps: seq<Step>)
    ensures |Exec(Create(n), steps).slots| == n
    decreases |steps|
  {
    if steps != [] {
      RunKeepsSize(n, steps[..|steps| - 1]);
    }
  }

  /** When the last packet or reading among these inputs came. */
  function SeenAt(start: nat, xs: seq<Stamped>): nat {
    if xs == [] then start
    else if xs[|xs| - 1].input.Segment? then SeenAt(start, xs[..|xs| - 1])
    else xs[|xs| - 1].ts
  }

  lemma {:induction false} FoldLastSeen(found: Slot, xs: seq<Stamped>)
    ensures Fold(found, xs).lastSeen == SeenAt(found.lastSeen, xs)
    decreases |xs|
  {
    if xs != [] {
      FoldLastSeen(found, xs[..|xs| - 1]);
    }
  }

  /** In every run a tracked flow was last seen when its last packet or reading came. */
  lemma TrackedFlowSeen(n: nat, steps: seq<Step>, key: Key)
    requires StayOf(n, steps, key).Some?
    ensures KeysDistinct(Exec(Create(n), steps).slots) && key in Flows(Exec(Create(n), steps).slots)
    ensures var t := StayOf(n, steps, key).value;
            Flows(Exec(Create(n), steps).slots)[key].lastSeen == SeenAt(t.found.lastSeen, t.inputs)
  {
    RunFaithful(n, steps, key);
    FoldLastSeen(StayOf(n, steps, key).value.found, StayOf(n, steps, key).value.inputs);
  }

  // ---------------------------------------------------------------------
  // Bytes of a flow: packets plus the rises of its queue readings
  // ---------------------------------------------------------------------

  function PacketSum(xs: seq<Stamped>): nat {
    if xs == [] then 0
    else PacketSum(xs[..|xs| - 1]) + if xs[|xs| - 1].input.Packet? then xs[|xs| - 1].input.size else 0
  }

  /** One queue's readings, in order. */
  function Readings(xs: seq<Stamped>, rx: bool): seq<nat> {
    if xs == [] then []
    else
      var x := xs[|xs| - 1].input;
      Readings(xs[..|xs| - 1], rx) + if x.Reading? then [if rx then x.rx else x.tx] else []
  }

  /** The last reading, or the value before the first. */
  function LastOf(start: nat, q: seq<nat>): nat {
    if q == [] then start else q[|q| - 1]
  }

  /** How far the readings rise in all, from `start` on. */
  function Rises(start: nat, q: seq<nat>): nat {
    if q == [] then 0
    else Rises(start, q[..|q| - 1]) + Delta(q[|q| - 1], LastOf(start, q[..|q| - 1]))
  }

  /** How far they fall in all. */
  function Falls(start: nat, q: seq<nat>): nat {
    if q == [] then 0
    else Falls(start, q[..|q| - 1]) + Delta(LastOf(start, q[..|q| - 1]), q[|q| - 1])
  }

  /** Modulo 2^64 the slot holds, over what was found, these totals; and these last readings. */
  ghost predicate Holds(r: Slot, found: Slot, packets: nat, rx: seq<nat>, tx: seq<nat>) {
    && Congruent(r.bytes, found.bytes + packets + Rises(found.prevRx, rx) + Rises(found.prevTx, tx))
    && r.prevRx == LastOf(found.prevRx, rx) && r.prevTx == LastOf(found.prevTx, tx)
  }

  lemma RisesSnoc(start: nat, q: seq<nat>, v: nat)
    ensures Rises(start, q + [v]) == Rises(start, q) + Delta(v, LastOf(start, q)) && LastOf(start, q + [v]) == v
  {
    assert (q + [v])[..|q|] == q;
  }

  lemma CongruentAdd(bytes: nat, total: nat, rise: nat)
    requires Congruent(bytes, total)
    ensures Congruent((bytes + rise % U64) % U64, total + rise)
  {
  }

  lemma AbsorbReading(r: Slot, found: Slot, a: nat, b: nat, ts: nat, packets: nat, rx: seq<nat>, tx: seq<nat>)
    requires Holds(r, found, packets, rx, tx)
    ensures Holds(Absorb(r, Reading(a, b), ts), found, packets, rx + [a], tx + [b])
  {
    RisesSnoc(found.prevRx, rx, a);
    RisesSnoc(found.prevTx, tx, b);
    CongruentAdd(r.bytes, found.bytes + packets + Rises(found.prevRx, rx) + Rises(found.prevTx, tx),
                 Delta(a, r.prevRx) + Delta(b, r.prevTx));
  }

  lemma AbsorbPacket(r: Slot, found: Slot, size: nat, ts: nat, packets: nat, rx: seq<nat>, tx: seq<nat>)
    requires Holds(r, found, packets, rx, tx)
    ensures Holds(Absorb(r, Packet(size), ts), found, packets + size, rx, tx)
  {
    AbsorbGains(r, Packet(size), ts);
    CongruentSum(r.bytes, found.bytes + packets + Rises(found.prevRx, rx) + Rises(found.prevTx, tx),
                 Absorb(r, Packet(size), ts).bytes - r.bytes, size);
  }

  lemma {:induction false} FoldBytes(found: Slot, xs: seq<Stamped>)
    ensures Holds(Fold(found, xs), found, PacketSum(xs), Readings(xs, true), Readings(xs, false))
    decreases |xs|
  {
    if xs != [] {
      var n := |xs| - 1;
      FoldBytes(found, xs[..n]);
      var r, packets := Fold(found, xs[..n]), PacketSum(xs[..n]);
      var rx, tx := Readings(xs[..n], true), Readings(xs[..n], false);
      assert rx + [] == rx && tx + [] == tx;
      match xs[n].input
      case Packet(size) => AbsorbPacket(r, found, size, xs[n].ts, packets, rx, tx);
      case Reading(a, b) => AbsorbReading(r, found, a, b, xs[n].ts, packets, rx, tx);
      case Segment(_, _, _) =>
    }
  }

  /** Rises exceed falls by the distance from start to final reading. */
  lemma {:induction false} RisesTelescope(start: nat, q: seq<nat>)
    ensures start + Rises(start, q) == LastOf(start, q) + Falls(start, q)
    decreases |q|
  {
    if q != [] {
      RisesTelescope(start, q[..|q| - 1]);
    }
  }

  ghost predicate NeverFalls(start: nat, q: seq<nat>) {
    && (forall i | 0 <= i < |q| :: start <= q[i])
    && forall i, j | 0 <= i < j < |q| :: q[i] <= q[j]
  }

  lemma {:induction false} FallsZeroIff(start: nat, q: seq<nat>)
    ensures Falls(start, q) == 0 <==> NeverFalls(start, q)
    decreases |q|
  {
    if q != [] {
      var n := |q| - 1;
      FallsZeroIff(start, q[..n]);
      if Falls(start, q) == 0 {
        assert LastOf(start, q[..n]) <= q[n];
        assert n > 0 ==> forall i | 0 <= i < n :: q[..n][i] <= LastOf(start, q[..n]);
      }
    }
  }

  /** The accumulated rises lead from start to final reading exactly when no reading is below the one before it. */
  lemma RisesEqualLastIff(start: nat, q: seq<nat>)
    ensures start + Rises(start, q) == LastOf(start, q) <==> NeverFalls(start, q)
  {
    RisesTelescope(start, q);
    FallsZeroIff(start, q);
  }

  /** The accumulated rises reach every single reading. */
  lemma {:induction false} RisesCoverEveryReading(start: nat, q: seq<nat>, i: nat)
    requires i < |q|
    ensures q[i] <= start + Rises(start, q)
    decreases |q|
  {
    var n := |q| - 1;
    RisesTelescope(start, q);
    if i < n {
      RisesCoverEveryReading(start, q[..n], i);
    }
  }

  /**
   * In every run a tracked flow's bytes are, modulo 2^64, what it found plus
   * its packets' sizes and the rises of its two queues since.
   */
  lemma TrackedFlowBytes(n: nat, steps: seq<Step>, key: Key)
    ensures KeysDistinct(Exec(Create(n), steps).slots)
    ensures key in Flows(Exec(Create(n), steps).slots) <==> StayOf(n, steps, key).Some?
    ensures StayOf(n, steps, key).Some? ==>
              var t := StayOf(n, steps, key).value;
              Holds(Flows(Exec(Create(n), steps).slots)[key], t.found, PacketSum(t.inputs),
                    Readings(t.inputs, true), Readings(t.inputs, false))
  {
    RunFaithful(n, steps, key);
    if StayOf(n, steps, key).Some? {
      FoldBytes(StayOf(n, steps, key).value.found, StayOf(n, steps, key).value.inputs);
    }
  }

  // ---------------------------------------------------------------------
  // When the left-overs do not show
  // ---------------------------------------------------------------------

  /** What a left-over reading hides of the first reading after it. */
  function Hidden(start: nat, q: seq<nat>): nat {
    if q == [] then 0 else if start < q[0] then start else q[0]
  }

  lemma {:induction false} RisesFromZero(start: nat, q: seq<nat>)
    ensures Rises(0, q) == Rises(start, q) + Hidden(start, q)
    decreases |q|
  {
    if |q| > 1 {
      RisesFromZero(start, q[..|q| - 1]);
    } else if |q| == 1 {
      assert q[..0] == [];
    }
  }

  /** What a flow alone would count: its packets and its queues' rises from zero. */
  function OwnBytes(xs: seq<Stamped>): nat {
    PacketSum(xs) + Rises(0, Readings(xs, true)) + Rises(0, Readings(xs, false))
  }

  lemma ShiftedCongruence(bytes: int, left: int, hidden: int, own: int)
    requires Congruent(bytes, left + own - hidden)
    ensures Congruent(bytes, own) <==> Congruent(left, hidden)
  {
  }

  /** The bytes found make up, modulo 2^64, for what the readings found hide. */
  ghost predicate LeftoversCancel(t: Stay) {
    Congruent(t.found.bytes, Hidden(t.found.prevRx, Readings(t.inputs, true)) +
                             Hidden(t.found.prevTx, Readings(t.inputs, false)))
  }

  lemma OwnBytesIff(r: Slot, t: Stay)
    requires Holds(r, t.found, PacketSum(t.inputs), Readings(t.inputs, true), Readings(t.inputs, false))
    ensures Congruent(r.bytes, OwnBytes(t.inputs)) <==> LeftoversCancel(t)
  {
    var rx, tx := Readings(t.inputs, true), Readings(t.inputs, false);
    RisesFromZero(t.found.prevRx, rx);
    RisesFromZero(t.found.prevTx, tx);
    ShiftedCongruence(r.bytes, t.found.bytes, Hidden(t.found.prevRx, rx) + Hidden(t.found.prevTx, tx),
                      OwnBytes(t.inputs));
  }

  lemma {:induction false} NoReadings(xs: seq<Stamped>, rx: bool)
    requires forall i | 0 <= i < |xs| :: !xs[i].input.Reading?
    ensures Readings(xs, rx) == []
    decreases |xs|
  {
    if xs != [] {
      NoReadings(xs[..|xs| - 1], rx);
    }
  }

  /** With no queue readings there is nothing to cancel bytes found. */
  lemma NothingCancels(t: Stay)
    requires InWidth(t.found) && forall i | 0 <= i < |t.inputs| :: !t.inputs[i].input.Reading?
    ensures LeftoversCancel(t) <==> t.found.bytes == 0
  {
    NoReadings(t.inputs, true);
    NoReadings(t.inputs, false);
  }

  /**
   * In every run a tracked flow's bytes are its own exactly when the left-overs
   * it found cancel; so a flow without queue readings counts right exactly when
   * it found no bytes.
   */
  lemma NewFlowStartsCleanIff(n: nat, steps: seq<Step>, key: Key)
    ensures KeysDistinct(Exec(Create(n), steps).slots)
    ensures key in Flows(Exec(Create(n), steps).slots) <==> StayOf(n, steps, key).Some?
    ensures StayOf(n, steps, key).Some? ==>
              var t := StayOf(n, steps, key).value;
              Congruent(Flows(Exec(Create(n), steps).slots)[key].bytes, OwnBytes(t.inputs)) <==> LeftoversCancel(t)
    ensures StayOf(n, steps, key).Some? ==>
              var t := StayOf(n, steps, key).value;
              (forall i | 0 <= i < |t.inputs| :: !t.inputs[i].input.Reading?) ==>
              (LeftoversCancel(t) <==> t.found.bytes == 0)
  {
    TrackedFlowBytes(n, steps, key);
    if StayOf(n, steps, key).Some? {
      var t := StayOf(n, steps, key).value;
      OwnBytesIff(Flows(Exec(Create(n), steps).slots)[key], t);
      StayInWidth(n, steps, key);
      if forall i | 0 <= i < |t.inputs| :: !t.inputs[i].input.Reading? {
        NothingCancels(t);
      }
    }
  }

  // ---------------------------------------------------------------------
  // One flow's events
  // ---------------------------------------------------------------------

  /** The events a slot raises for these inputs. */
  function EventsOf(found: Slot, xs: seq<Stamped>): seq<FlowEvent> {
    if xs == [] then []
    else
      var n := |xs| - 1;
      EventsOf(found, xs[..n]) + EventFor(Fold(found, xs[..n]), xs[n].input, xs[n].ts)
  }

  /** Over what was found, a slot counts one packet for each event raised, and that event's bytes. */
  lemma {:induction false} CountersMatchEvents(found: Slot, xs: seq<Stamped>)
    ensures Congruent(Fold(found, xs).packets, found.packets + |EventsOf(found, xs)|)
    ensures Congruent(Fold(found, xs).bytes, found.bytes + EventBytes(EventsOf(found, xs)))
    decreases |xs|
  {
    if xs != [] {
      var n := |xs| - 1;
      CountersMatchEvents(found, xs[..n]);
      var r, evs := Fold(found, xs[..n]), EventFor(Fold(found, xs[..n]), xs[n].input, xs[n].ts);
      AbsorbGains(r, xs[n].input, xs[n].ts);
      EventCarriesGain(r, xs[n].input, xs[n].ts);
      EventBytesConcat(EventsOf(found, xs[..n]), evs);
      CongruentSum(r.bytes, found.bytes + EventBytes(EventsOf(found, xs[..n])),
                   Absorb(r, xs[n].input, xs[n].ts).bytes - r.bytes, EventBytes(evs));
      CountsOne(r, xs[n].input, xs[n].ts);
      CongruentSum(r.packets, found.packets + |EventsOf(found, xs[..n])|,
                   Absorb(r, xs[n].input, xs[n].ts).packets - r.packets, |evs|);
    }
  }

  lemma CountsOne(r: Slot, x: Input, ts: nat)
    ensures Congruent(Absorb(r, x, ts).packets - r.packets, |EventFor(r, x, ts)|)
  {
    var n := |EventFor(r, x, ts)|;
    if x.Segment? {
      assert Absorb(r, x, ts).packets == r.packets && n == 0;
    } else {
      assert Absorb(r, x, ts).packets == (r.packets + n) % U64;
      CongruentGain(r.packets, n);
    }
  }
}
