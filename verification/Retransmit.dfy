/**
 * TCP retransmission detection on one flow, over every run of inputs
 * (compare section 3.4 of RFC 9293).
 */
module Retransmit {
  import opened Wrappers
  import opened FlowTable
  import opened FlowRuns
  import opened FlowTotals

  datatype Seg = Seg(start: nat, len: nat)

  function End(g: Seg): nat {
    g.start + g.len
  }

  // ---------------------------------------------------------------------
  // The specification: which segments count as new, above an initial mark
  // ---------------------------------------------------------------------

  /** `g` starts before the initial mark, or before the end of some segment of `kept`. */
  predicate Behind(mark: nat, kept: seq<Seg>, g: Seg) {
    g.start < mark || exists i | 0 <= i < |kept| :: g.start < End(kept[i])
  }

  /** The segments that start behind neither the mark nor a segment kept before them. */
  function Kept(mark: nat, segs: seq<Seg>): seq<Seg> {
    if segs == [] then []
    else
      var n := |segs| - 1;
      var before := Kept(mark, segs[..n]);
      if Behind(mark, before, segs[n]) then before else before + [segs[n]]
  }

  lemma {:induction false} KeptAreFewer(mark: nat, segs: seq<Seg>)
    ensures |Kept(mark, segs)| <= |segs|
    decreases |segs|
  {
    if segs != [] {
      KeptAreFewer(mark, segs[..|segs| - 1]);
    }
  }

  /** The greatest of the mark and the ends of `segs`. */
  function MaxEnd(mark: nat, segs: seq<Seg>): nat {
    if segs == [] then mark
    else
      var rest, last := MaxEnd(mark, segs[..|segs| - 1]), End(segs[|segs| - 1]);
      if rest > last then rest else last
  }

  lemma {:induction false} BehindIffBelowMaxEnd(mark: nat, kept: seq<Seg>, g: Seg)
    ensures Behind(mark, kept, g) <==> g.start < MaxEnd(mark, kept)
    decreases |kept|
  {
    if kept != [] {
      var n := |kept| - 1;
      BehindIffBelowMaxEnd(mark, kept[..n], g);
      assert forall i | 0 <= i < n :: kept[..n][i] == kept[i];
      if Behind(mark, kept, g) && g.start >= mark {
        var i :| 0 <= i < |kept| && g.start < End(kept[i]);
        assert i < n ==> g.start < End(kept[..n][i]);
      }
    }
  }

  /** Where the next segment is expected. */
  function Expected(mark: nat, segs: seq<Seg>): nat {
    MaxEnd(mark, Kept(mark, segs))
  }

  lemma KeptSnoc(mark: nat, segs: seq<Seg>, g: Seg)
    ensures Kept(mark, segs + [g]) ==
            if g.start < Expected(mark, segs) then Kept(mark, segs) else Kept(mark, segs) + [g]
    ensures Expected(mark, segs + [g]) == if g.start < Expected(mark, segs) then Expected(mark, segs) else End(g)
  {
    assert (segs + [g])[..|segs|] == segs;
    BehindIffBelowMaxEnd(mark, Kept(mark, segs), g);
    assert (Kept(mark, segs) + [g])[..|Kept(mark, segs)|] == Kept(mark, segs);
  }

  // ---------------------------------------------------------------------
  // Stretches between resets of the mark
  // ---------------------------------------------------------------------

  /**
   * A stretch of data segments after the mark was last set outright: by SYN or
   * FIN, or by a segment that runs across the end of the sequence space.
   */
  datatype Stretch = Stretch(mark: nat, segs: seq<Seg>)

  /** How many of the stretch's segments are reported. */
  function Reported(e: Stretch): nat {
    KeptAreFewer(e.mark, e.segs);
    |e.segs| - |Kept(e.mark, e.segs)|
  }

  /** The present stretch, and the number of segments reported in the ones before it. */
  datatype Story = Story(earlier: nat, now: Stretch)

  function Reset(y: Story, mark: nat): Story {
    Story(y.earlier + Reported(y.now), Stretch(mark, []))
  }

  function Tell(y: Story, x: Input): Story {
    if !x.Segment? then y
    else if x.synOrFin then Reset(y, (x.seqNum + 1) % U32)
    else if x.payload == 0 then y
    else
      var g := Seg(x.seqNum, x.payload);
      if End(g) < U32 || Behind(y.now.mark, Kept(y.now.mark, y.now.segs), g)
      then y.(now := Stretch(y.now.mark, y.now.segs + [g]))
      else Reset(y, End(g) % U32)
  }

  function StoryOf(mark: nat, xs: seq<Stamped>): Story {
    if xs == [] then Story(0, Stretch(mark, []))
    else Tell(StoryOf(mark, xs[..|xs| - 1]), xs[|xs| - 1].input)
  }

  // ---------------------------------------------------------------------
  // The detector meets it
  // ---------------------------------------------------------------------

  /** The slot expects what the stretch expects, and has counted, modulo 2^32, every report since `base`. */
  ghost predicate Marks(r: Slot, base: nat, y: Story) {
    && r.seqExpected == Expected(y.now.mark, y.now.segs)
    && SameCount(r.retransmits, base + Total(y))
  }

  /** Equal as 32-bit counters. */
  predicate SameCount(a: nat, b: nat) {
    (a - b) % U32 == 0
  }

  /** All segments reported so far. */
  function Total(y: Story): nat {
    y.earlier + Reported(y.now)
  }

  function Tick(n: nat): nat {
    (n + 1) % U32
  }

  lemma TickModulo(count: nat, total: nat)
    requires SameCount(count, total)
    ensures SameCount(Tick(count), total + 1)
  {
    var whole, apart := (count + 1) / U32, (count - total) / U32;
    assert Tick(count) - (total + 1) == U32 * (apart - whole);
    MultipleIsZero(apart - whole);
  }

  lemma MultipleIsZero(k: int)
    ensures U32 * k % U32 == 0
  {
  }

  lemma StretchSnoc(e: Stretch, g: Seg, e': Stretch)
    requires e' == Stretch(e.mark, e.segs + [g])
    ensures if g.start < Expected(e.mark, e.segs)
            then Expected(e.mark, e'.segs) == Expected(e.mark, e.segs) && Reported(e') == Reported(e) + 1
            else Expected(e.mark, e'.segs) == End(g) && Reported(e') == Reported(e)
  {
    KeptSnoc(e.mark, e.segs, g);
  }

  lemma AbsorbData(r: Slot, g: Seg, ts: nat)
    requires g.len > 0
    ensures IsRetransmit(r, Segment(g.start, g.len, false)) <==> g.start < r.seqExpected
    ensures Absorb(r, Segment(g.start, g.len, false), ts) ==
            if g.start < r.seqExpected then r.(retransmits := Tick(r.retransmits))
            else r.(seqExpected := End(g) % U32)
  {
  }

  lemma TellAs(y: Story, g: Seg)
    requires g.len > 0
    ensures Behind(y.now.mark, Kept(y.now.mark, y.now.segs), g) <==> g.start < Expected(y.now.mark, y.now.segs)
    ensures Tell(y, Segment(g.start, g.len, false)) ==
            if End(g) < U32 || g.start < Expected(y.now.mark, y.now.segs)
            then Story(y.earlier, Stretch(y.now.mark, y.now.segs + [g]))
            else Reset(y, End(g) % U32)
  {
    BehindIffBelowMaxEnd(y.now.mark, Kept(y.now.mark, y.now.segs), g);
  }

  lemma MarksBehind(r: Slot, base: nat, y: Story, g: Seg, r': Slot, y': Story)
    requires r.seqExpected == Expected(y.now.mark, y.now.segs) && g.start < r.seqExpected
    requires r'.seqExpected == r.seqExpected && SameCount(r'.retransmits, base + Total(y) + 1)
    requires y' == Story(y.earlier, Stretch(y.now.mark, y.now.segs + [g]))
    ensures Marks(r', base, y')
  {
    StretchSnoc(y.now, g, y'.now);
    assert base + Total(y') == base + Total(y) + 1;
  }

  lemma MarksNew(r: Slot, base: nat, y: Story, g: Seg, r': Slot, y': Story)
    requires Marks(r, base, y) && g.start >= r.seqExpected
    requires r'.seqExpected == End(g) && r'.retransmits == r.retransmits
    requires y' == Story(y.earlier, Stretch(y.now.mark, y.now.segs + [g]))
    ensures Marks(r', base, y')
  {
    StretchSnoc(y.now, g, y'.now);
    assert Total(y') == Total(y);
  }

  lemma MarksReset(r: Slot, base: nat, y: Story, mark: nat, r': Slot)
    requires Marks(r, base, y)
    requires r'.seqExpected == mark && r'.retransmits == r.retransmits
    ensures Marks(r', base, Reset(y, mark))
  {
  }

  lemma TellData(r: Slot, base: nat, y: Story, g: Seg, ts: nat)
    requires Marks(r, base, y) && g.len > 0
    ensures Marks(Absorb(r, Segment(g.start, g.len, false), ts), base, Tell(y, Segment(g.start, g.len, false)))
  {
    AbsorbData(r, g, ts);
    TellAs(y, g);
    var r', y' := Absorb(r, Segment(g.start, g.len, false), ts), Tell(y, Segment(g.start, g.len, false));
    if g.start < r.seqExpected {
      TickModulo(r.retransmits, base + Total(y));
      MarksBehind(r, base, y, g, r', y');
    } else if End(g) < U32 {
      MarksNew(r, base, y, g, r', y');
    } else {
      MarksReset(r, base, y, End(g) % U32, r');
    }
  }

  lemma TellMarks(r: Slot, base: nat, y: Story, x: Input, ts: nat)
    requires Marks(r, base, y)
    ensures Marks(Absorb(r, x, ts), base, Tell(y, x))
  {
    if x.Segment? && !x.synOrFin && x.payload > 0 {
      TellData(r, base, y, Seg(x.seqNum, x.payload), ts);
    } else if x.Segment? && x.synOrFin {
      MarksReset(r, base, y, (x.seqNum + 1) % U32, Absorb(r, x, ts));
    }
  }

  /** After any inputs to any slot, its mark and counter are those of the specification. */
  lemma {:induction false} FoldMarks(found: Slot, xs: seq<Stamped>)
    ensures Marks(Fold(found, xs), found.retransmits, StoryOf(found.seqExpected, xs))
    decreases |xs|
  {
    if xs != [] {
      var n := |xs| - 1;
      FoldMarks(found, xs[..n]);
      TellMarks(Fold(found, xs[..n]), found.retransmits, StoryOf(found.seqExpected, xs[..n]), xs[n].input, xs[n].ts);
    }
  }

  /**
   * Whatever a slot held and has been told, the next data segment is reported
   * exactly when it starts before the stretch's mark or before the end of a
   * segment the stretch has kept.
   */
  lemma ReportedIffBehind(found: Slot, xs: seq<Stamped>, g: Seg)
    requires g.len > 0
    ensures var e := StoryOf(found.seqExpected, xs).now;
            IsRetransmit(Fold(found, xs), Segment(g.start, g.len, false)) <==> Behind(e.mark, Kept(e.mark, e.segs), g)
  {
    FoldMarks(found, xs);
    AbsorbData(Fold(found, xs), g, 0);
    TellAs(StoryOf(found.seqExpected, xs), g);
  }

  /** The present stretch of a flow with a slot. */
  function StretchOf(t: Stay): Stretch {
    StoryOf(t.found.seqExpected, t.inputs).now
  }

  /** The same for a flow inside a tracker, in every run. */
  lemma TrackedFlowReports(n: nat, steps: seq<Step>, key: Key, g: Seg)
    requires g.len > 0
    ensures KeysDistinct(Exec(Create(n), steps).slots)
    ensures key in Flows(Exec(Create(n), steps).slots) <==> StayOf(n, steps, key).Some?
    ensures StayOf(n, steps, key).Some? ==>
              var e := StretchOf(StayOf(n, steps, key).value);
              IsRetransmit(Flows(Exec(Create(n), steps).slots)[key], Segment(g.start, g.len, false)) <==>
              Behind(e.mark, Kept(e.mark, e.segs), g)
  {
    RunFaithful(n, steps, key);
    if StayOf(n, steps, key).Some? {
      ReportedIffBehind(StayOf(n, steps, key).value.found, StayOf(n, steps, key).value.inputs, g);
    }
  }

  /** A flow's first data segment is reported exactly when it starts below the mark left in the slot. */
  lemma FirstSegmentReportedIff(found: Slot, xs: seq<Stamped>, g: Seg)
    requires g.len > 0 && forall i | 0 <= i < |xs| :: !xs[i].input.Segment?
    ensures IsRetransmit(Fold(found, xs), Segment(g.start, g.len, false)) <==> g.start < found.seqExpected
  {
    NoStory(found.seqExpected, xs);
    ReportedIffBehind(found, xs, g);
  }

  lemma {:induction false} NoStory(mark: nat, xs: seq<Stamped>)
    requires forall i | 0 <= i < |xs| :: !xs[i].input.Segment?
    ensures StoryOf(mark, xs) == Story(0, Stretch(mark, []))
    decreases |xs|
  {
    if xs != [] {
      NoStory(mark, xs[..|xs| - 1]);
    }
  }

  // ---------------------------------------------------------------------
  // What that means for streams
  // ---------------------------------------------------------------------

  /** Within a stretch the expected number never moves back. */
  lemma {:induction false} MarkNeverDecreases(mark: nat, segs: seq<Seg>, k: nat)
    requires k <= |segs|
    ensures Expected(mark, segs[..k]) <= Expected(mark, segs)
    decreases |segs|
  {
    if k < |segs| {
      var n := |segs| - 1;
      var init := segs[..n];
      MarkNeverDecreases(mark, init, k);
      assert init[..k] == segs[..k];
      assert init + [segs[n]] == segs;
      KeptSnoc(mark, init, segs[n]);
    } else {
      assert segs[..k] == segs;
    }
  }

  predicate Contiguous(mark: nat, segs: seq<Seg>) {
    && (segs != [] ==> segs[0].start == mark)
    && forall i, j | 0 <= i < |segs| && j == i + 1 < |segs| :: segs[j].start == End(segs[i])
  }

  /** A stream sent in order is kept whole: nothing in it is ever reported. */
  lemma {:induction false} ContiguousIsKept(mark: nat, segs: seq<Seg>)
    requires Contiguous(mark, segs)
    ensures Kept(mark, segs) == segs
    ensures Expected(mark, segs) == if segs == [] then mark else End(segs[|segs| - 1])
    decreases |segs|
  {
    if segs != [] {
      var n := |segs| - 1;
      var init := segs[..n];
      ContiguousIsKept(mark, init);
      assert init + [segs[n]] == segs;
      assert n > 0 ==> segs[n].start == End(init[n - 1]);
      KeptSnoc(mark, init, segs[n]);
    }
  }

  /** Segment `i` was reported when it came. */
  predicate WasReported(e: Stretch, i: nat)
    requires i < |e.segs|
  {
    Behind(e.mark, Kept(e.mark, e.segs[..i]), e.segs[i])
  }

  /** A segment that was not reported ends at or before the expected octet ever after. */
  lemma UnreportedEnds(e: Stretch, i: nat)
    requires i < |e.segs| && !WasReported(e, i)
    ensures End(e.segs[i]) <= Expected(e.mark, e.segs)
  {
    var upTo := e.segs[..i + 1];
    assert upTo == e.segs[..i] + [e.segs[i]];
    BehindIffBelowMaxEnd(e.mark, Kept(e.mark, e.segs[..i]), e.segs[i]);
    KeptSnoc(e.mark, e.segs[..i], e.segs[i]);
    MarkNeverDecreases(e.mark, e.segs, i + 1);
  }

  /** A replay of any segment of the stretch, reported or not, is reported. */
  lemma ReplayIsBehind(e: Stretch, i: nat)
    requires i < |e.segs| && e.segs[i].len > 0
    ensures Behind(e.mark, Kept(e.mark, e.segs), e.segs[i])
  {
    BehindIffBelowMaxEnd(e.mark, Kept(e.mark, e.segs), e.segs[i]);
    if WasReported(e, i) {
      BehindIffBelowMaxEnd(e.mark, Kept(e.mark, e.segs[..i]), e.segs[i]);
      MarkNeverDecreases(e.mark, e.segs, i);
    } else {
      UnreportedEnds(e, i);
    }
  }

  /** The segments of the stretch that were reported when they came. */
  ghost function ReportedOnes(e: Stretch): set<nat> {
    set i | 0 <= i < |e.segs| && WasReported(e, i)
  }

  lemma ReportedOnesSnoc(e: Stretch, g: Seg)
    ensures var before, n := ReportedOnes(e), |e.segs|;
            ReportedOnes(Stretch(e.mark, e.segs + [g])) ==
            if g.start < Expected(e.mark, e.segs) then before + {n} else before
  {
    var e', n := Stretch(e.mark, e.segs + [g]), |e.segs|;
    assert forall i | 0 <= i <= n :: e'.segs[..i] == e.segs[..i];
    assert e.segs[..n] == e.segs;
    BehindIffBelowMaxEnd(e.mark, Kept(e.mark, e.segs), g);
  }

  /** The counter counts exactly the segments that were reported when they came. */
  lemma {:induction false} CountsTheRest(e: Stretch)
    ensures Reported(e) == |ReportedOnes(e)|
    decreases |e.segs|
  {
    if e.segs == [] {
      assert ReportedOnes(e) == {};
    } else {
      var n := |e.segs| - 1;
      var e' := Stretch(e.mark, e.segs[..n]);
      CountsTheRest(e');
      assert e.segs == e'.segs + [e.segs[n]];
      ReportedOnesSnoc(e', e.segs[n]);
      StretchSnoc(e', e.segs[n], e);
    }
  }

  // ---------------------------------------------------------------------
  // When the reports are right
  // ---------------------------------------------------------------------

  /**
   * The octets a segment carries, as ranges of the sequence space: one that
   * runs across its end is two ranges. Data may come with SYN or FIN.
   */
  function DataOf(x: Input): seq<Seg> {
    if !x.Segment? || x.payload == 0 then []
    else if x.seqNum + x.payload <= U32 then [Seg(x.seqNum, x.payload)]
    else if x.seqNum < U32 && x.seqNum + x.payload <= 2 * U32 then
      [Seg(x.seqNum, U32 - x.seqNum), Seg(0, x.seqNum + x.payload - U32)]
    else []
  }

  /** All data among these inputs, whatever became of it. */
  function Heard(xs: seq<Stamped>): seq<Seg> {
    if xs == [] then [] else Heard(xs[..|xs| - 1]) + DataOf(xs[|xs| - 1].input)
  }

  predicate InSpace(all: seq<Seg>) {
    forall i | 0 <= i < |all| :: all[i].len > 0 && End(all[i]) <= U32
  }

  lemma {:induction false} HeardInSpace(xs: seq<Stamped>)
    ensures InSpace(Heard(xs))
    decreases |xs|
  {
    if xs != [] {
      HeardInSpace(xs[..|xs| - 1]);
    }
  }

  /** The octet `o` was received. */
  predicate Received(all: seq<Seg>, o: nat) {
    exists i | 0 <= i < |all| :: all[i].start <= o < End(all[i])
  }

  /** From `from` up to the expected octet no gap begins: not at `from`, and not at the end of a range. */
  ghost predicate NoGap(from: nat, expected: nat, all: seq<Seg>) {
    && (from < expected ==> Received(all, from))
    && forall i | 0 <= i < |all| && from <= End(all[i]) < expected :: Received(all, End(all[i]))
  }

  /** No range that reaches above `from` reaches past the expected octet. */
  ghost predicate NoOverhang(from: nat, expected: nat, all: seq<Seg>) {
    forall i | 0 <= i < |all| && from < End(all[i]) :: End(all[i]) <= expected
  }

  /** The octet is below the expected one exactly when it was received. */
  predicate RightAt(expected: nat, all: seq<Seg>, o: nat) {
    o < expected <==> Received(all, o)
  }

  lemma {:induction false} NoGapCovers(from: nat, expected: nat, all: seq<Seg>, o: nat)
    requires NoGap(from, expected, all) && from <= o < expected
    ensures Received(all, o)
    decreases o
  {
    if o > from {
      NoGapCovers(from, expected, all, o - 1);
      var i :| 0 <= i < |all| && all[i].start <= o - 1 < End(all[i]);
      if End(all[i]) > o {
        assert all[i].start <= o < End(all[i]);
      } else {
        assert End(all[i]) == o;
      }
    }
  }

  lemma RightWithout(from: nat, expected: nat, all: seq<Seg>, o: nat)
    requires NoGap(from, expected, all) && NoOverhang(from, expected, all) && from <= o
    ensures RightAt(expected, all, o)
  {
    if o < expected {
      NoGapCovers(from, expected, all, o);
    }
  }

  lemma RightOnlyWithout(from: nat, expected: nat, all: seq<Seg>)
    requires InSpace(all) && expected <= U32
    requires forall o | from <= o < U32 :: RightAt(expected, all, o)
    ensures NoGap(from, expected, all) && NoOverhang(from, expected, all)
  {
    if from < expected {
      assert RightAt(expected, all, from);
    }
    forall i | 0 <= i < |all| && from <= End(all[i]) < expected
      ensures Received(all, End(all[i]))
    {
      assert RightAt(expected, all, End(all[i]));
    }
    forall i | 0 <= i < |all| && from < End(all[i])
      ensures End(all[i]) <= expected
    {
      var last := End(all[i]) - 1;
      assert all[i].start <= last < End(all[i]);
      assert RightAt(expected, all, last);
    }
  }

  /**
   * Comparing with the expected octet tells, for every octet from `from` on,
   * whether it is among those received, if and only if no gap begins below the
   * expected octet and nothing reaches past it.
   */
  lemma ReportIsRightIff(from: nat, expected: nat, all: seq<Seg>)
    requires InSpace(all) && expected <= U32
    ensures (forall o | from <= o < U32 :: RightAt(expected, all, o)) <==>
            NoGap(from, expected, all) && NoOverhang(from, expected, all)
  {
    if NoGap(from, expected, all) && NoOverhang(from, expected, all) {
      forall o | from <= o < U32
        ensures RightAt(expected, all, o)
      {
        RightWithout(from, expected, all, o);
      }
    }
    if forall o | from <= o < U32 :: RightAt(expected, all, o) {
      RightOnlyWithout(from, expected, all);
    }
  }

  /** The slot reports the segment exactly when its first octet was received. */
  predicate ReportRight(r: Slot, all: seq<Seg>, g: Seg) {
    IsRetransmit(r, Segment(g.start, g.len, false)) <==> Received(all, g.start)
  }

  /** So it is for all segments that start at `from` or later. */
  ghost predicate AllRight(r: Slot, all: seq<Seg>, from: nat) {
    forall g: Seg | from <= g.start < U32 && g.len > 0 :: ReportRight(r, all, g)
  }

  lemma SlotReportsRightIff(r: Slot, xs: seq<Stamped>, from: nat)
    requires r.seqExpected < U32
    ensures AllRight(r, Heard(xs), from) <==>
            NoGap(from, r.seqExpected, Heard(xs)) && NoOverhang(from, r.seqExpected, Heard(xs))
  {
    var all := Heard(xs);
    HeardInSpace(xs);
    ReportIsRightIff(from, r.seqExpected, all);
    forall g: Seg | g.len > 0
      ensures ReportRight(r, all, g) <==> RightAt(r.seqExpected, all, g.start)
    {
      AbsorbData(r, g, 0);
    }
    if AllRight(r, all, from) {
      forall o | from <= o < U32
        ensures RightAt(r.seqExpected, all, o)
      {
        assert ReportRight(r, all, Seg(o, 1));
      }
    }
  }

  /**
   * In every run, every data segment that may come next to a tracked flow and
   * starts at `from` or later is reported exactly when its first octet was
   * received, if and only if there is neither gap nor overhang. This holds
   * whether receipt is counted since the flow took its slot or over the whole
   * run, through SYN, FIN and the end of the sequence space; with `from` zero
   * it is about every segment.
   */
  lemma TrackedReportsRightIff(n: nat, steps: seq<Step>, key: Key, from: nat)
    ensures KeysDistinct(Exec(Create(n), steps).slots)
    ensures key in Flows(Exec(Create(n), steps).slots) <==> StayOf(n, steps, key).Some?
    ensures StayOf(n, steps, key).Some? ==>
              var r, all := Flows(Exec(Create(n), steps).slots)[key], Heard(StayOf(n, steps, key).value.inputs);
              AllRight(r, all, from) <==> NoGap(from, r.seqExpected, all) && NoOverhang(from, r.seqExpected, all)
    ensures StayOf(n, steps, key).Some? ==>
              var r, all := Flows(Exec(Create(n), steps).slots)[key], Heard(InputsOf(steps, key));
              AllRight(r, all, from) <==> NoGap(from, r.seqExpected, all) && NoOverhang(from, r.seqExpected, all)
  {
    RunFaithful(n, steps, key);
    if StayOf(n, steps, key).Some? {
      StayInWidth(n, steps, key);
      var t := StayOf(n, steps, key).value;
      SlotReportsRightIff(Current(t), t.inputs, from);
      SlotReportsRightIff(Current(t), InputsOf(steps, key), from);
    }
  }

  // ---------------------------------------------------------------------
  // The ways to be wrong
  // ---------------------------------------------------------------------

  /** A data segment at time zero. */
  function Data(start: nat, len: nat): Stamped {
    Stamped(Segment(start, len, false), 0)
  }

  /** A segment with SYN or FIN. */
  function Ends(start: nat, len: nat): Stamped {
    Stamped(Segment(start, len, true), 0)
  }

  lemma HeardSnoc(xs: seq<Stamped>, x: Stamped)
    ensures Heard(xs + [x]) == Heard(xs) + DataOf(x.input)
  {
    assert (xs + [x])[..|xs|] == xs;
  }

  lemma Told1(r: Slot, a: Stamped)
    ensures Fold(r, [a]) == Absorb(r, a.input, a.ts) && Heard([a]) == DataOf(a.input)
  {
    assert [a][..0] == [];
  }

  lemma Told2(r: Slot, a: Stamped, b: Stamped)
    ensures Fold(r, [a, b]) == Absorb(Absorb(r, a.input, a.ts), b.input, b.ts)
    ensures Heard([a, b]) == DataOf(a.input) + DataOf(b.input)
  {
    Told1(r, a);
    FoldSnoc(r, [a], b);
    HeardSnoc([a], b);
    assert [a] + [b] == [a, b];
  }

  lemma Told3(r: Slot, a: Stamped, b: Stamped, c: Stamped)
    ensures Fold(r, [a, b, c]) == Absorb(Absorb(Absorb(r, a.input, a.ts), b.input, b.ts), c.input, c.ts)
    ensures Heard([a, b, c]) == DataOf(a.input) + DataOf(b.input) + DataOf(c.input)
  {
    Told2(r, a, b);
    FoldSnoc(r, [a, b], c);
    HeardSnoc([a, b], c);
    assert [a, b] + [c] == [a, b, c];
  }

  /** Octets 10 to 19 arriving after 20 to 29 are reported, though never received before. */
  lemma GapFillIsReported(r: Slot)
    requires r.seqExpected == 0
    ensures var xs := [Data(0, 10), Data(20, 10)];
            IsRetransmit(Fold(r, xs), Segment(10, 10, false)) && !Received(Heard(xs), 10)
  {
    Told2(r, Data(0, 10), Data(20, 10));
  }

  /** Octet 12, received in a reported segment from 5 to 14, comes again and is not reported. */
  lemma OverhangIsMissed(r: Slot)
    requires r.seqExpected == 0
    ensures var xs := [Data(0, 10), Data(5, 10)];
            !IsRetransmit(Fold(r, xs), Segment(12, 3, false)) && Received(Heard(xs), 12)
  {
    Told2(r, Data(0, 10), Data(5, 10));
    var all := Heard([Data(0, 10), Data(5, 10)]);
    assert all[1].start <= 12 < End(all[1]);
  }

  /** A segment across the end of the sequence space comes again and is not reported. */
  lemma WrapIsMissed(r: Slot)
    requires r.seqExpected == 0
    ensures var xs := [Data(4294967290, 10)];
            !IsRetransmit(Fold(r, xs), Segment(4294967290, 10, false)) && Received(Heard(xs), 4294967290)
  {
    Told1(r, Data(4294967290, 10));
    var all := Heard([Data(4294967290, 10)]);
    assert all[0].start <= 4294967290 < End(all[0]);
  }

  /** After a repeated SYN the data that followed the first one comes again and is not reported. */
  lemma SecondSynIsMissed(r: Slot)
    requires r.seqExpected == 0
    ensures var xs := [Ends(0, 0), Data(1, 10), Ends(0, 0)];
            !IsRetransmit(Fold(r, xs), Segment(1, 10, false)) && Received(Heard(xs), 1)
  {
    Told3(r, Ends(0, 0), Data(1, 10), Ends(0, 0));
    var all := Heard([Ends(0, 0), Data(1, 10), Ends(0, 0)]);
    assert all[0].start <= 1 < End(all[0]);
  }

  /** Data that came with a FIN comes again and is not reported. */
  lemma FinDataIsMissed(r: Slot)
    ensures var xs := [Ends(0, 10)];
            !IsRetransmit(Fold(r, xs), Segment(5, 5, false)) && Received(Heard(xs), 5)
  {
    Told1(r, Ends(0, 10));
    var all := Heard([Ends(0, 10)]);
    assert all[0].start <= 5 < End(all[0]);
  }

  lemma Closed(all: seq<Seg>)
    requires all == [Seg(0, 10), Seg(20, 10), Seg(10, 10)]
    ensures NoGap(0, 30, all) && NoOverhang(0, 30, all)
  {
    assert all[0].start <= 0 < End(all[0]);
    assert all[2].start <= 10 < End(all[2]);
    assert all[1].start <= 20 < End(all[1]);
    assert Received(all, 0) && Received(all, 10) && Received(all, 20);
  }

  /** Once the late octets 10 to 19 are in, every next segment is reported rightly: the gap is closed. */
  lemma ClosedGapIsRight(r: Slot, xs: seq<Stamped>)
    requires r.seqExpected == 0 && xs == [Data(0, 10), Data(20, 10), Data(10, 10)]
    ensures AllRight(Fold(r, xs), Heard(xs), 0)
  {
    Told3(r, xs[0], xs[1], xs[2]);
    Closed(Heard(xs));
    SlotReportsRightIff(Fold(r, xs), xs, 0);
  }
}
