/** The scheduling analyser: CPU run time per process from context switches. */
module Sched {
  import opened Wrappers
  import opened Modular

  /** A process's counters, all 64-bit. */
  datatype Usage = Usage(runTime: nat, switches: nat, wakeUps: nat, wakeLatency: nat)

  datatype State = State(stats: map<nat, Usage>, lastRun: map<nat, int>)

  /** Times are in nanoseconds. */
  datatype Step =
    | Switch(pid: nat, next: nat, prevState: int, ts: int)
    | WakeUp(pid: nat, latency: nat)

  const FRESH := State(map[], map[])

  // ---------------------------------------------------------------------
  // Steps
  // ---------------------------------------------------------------------

  function AddRun(stats: map<nat, Usage>, pid: nat, run: nat): map<nat, Usage> {
    stats[pid := if pid in stats
                 then stats[pid].(runTime := (stats[pid].runTime + run) % U64,
                                  switches := (stats[pid].switches + 1) % U64)
                 else Usage(run, 1, 0, 0)]
  }

  function AddWakeUp(stats: map<nat, Usage>, pid: nat, latency: nat): map<nat, Usage> {
    stats[pid := if pid in stats
                 then stats[pid].(wakeUps := (stats[pid].wakeUps + 1) % U64,
                                  wakeLatency := (stats[pid].wakeLatency + latency) % U64)
                 else Usage(0, 0, 1, latency % U64)]
  }

  /** The longest time span a duration can hold. */
  const MAX_SPAN: nat := 0x7FFF_FFFF_FFFF_FFFF

  /** The time between two instants: a duration, which saturates, read as an unsigned number. */
  function Elapsed(start: int, end: int): nat {
    if end - start > MAX_SPAN then MAX_SPAN
    else if start - end > MAX_SPAN + 1 then MAX_SPAN + 1
    else (end - start) % U64
  }

  function Apply(s: State, step: Step): State {
    match step
    case Switch(pid, next, prevState, ts) =>
      State(if prevState == 0 && pid in s.lastRun then AddRun(s.stats, pid, Elapsed(s.lastRun[pid], ts)) else s.stats,
            s.lastRun[next := ts])
    case WakeUp(pid, latency) => s.(stats := AddWakeUp(s.stats, pid, latency))
  }

  function Exec(steps: seq<Step>): State {
    if steps == [] then FRESH else Apply(Exec(steps[..|steps| - 1]), steps[|steps| - 1])
  }

  // ---------------------------------------------------------------------
  // Totals over all processes
  // ---------------------------------------------------------------------

  /** Run time of all processes together. */
  ghost function Total(stats: map<nat, Usage>): nat
    decreases |stats|
  {
    if stats == map[] then 0
    else
      var pid :| pid in stats;
      RemoveShrinks(stats, pid);
      stats[pid].runTime + Total(stats - {pid})
  }

  lemma RemoveShrinks(stats: map<nat, Usage>, pid: nat)
    requires pid in stats
    ensures |stats - {pid}| < |stats|
  {
    assert (stats - {pid}).Keys == stats.Keys - {pid};
  }

  /** The total does not depend on the order of summation. */
  lemma {:induction false} TotalWithout(stats: map<nat, Usage>, pid: nat)
    requires pid in stats
    ensures Total(stats) == stats[pid].runTime + Total(stats - {pid})
    decreases |stats|
  {
    var first :| first in stats && Total(stats) == stats[first].runTime + Total(stats - {first});
    if first != pid {
      RemoveShrinks(stats, first);
      RemoveShrinks(stats, pid);
      TotalWithout(stats - {first}, pid);
      TotalWithout(stats - {pid}, first);
      assert stats - {first} - {pid} == stats - {pid} - {first};
    }
  }

  lemma TotalUpdate(stats: map<nat, Usage>, pid: nat, u: Usage)
    ensures Total(stats[pid := u]) == Total(stats) + u.runTime - (if pid in stats then stats[pid].runTime else 0)
  {
    TotalWithout(stats[pid := u], pid);
    if pid in stats {
      TotalWithout(stats, pid);
      assert stats[pid := u] - {pid} == stats - {pid};
    } else {
      assert stats[pid := u] - {pid} == stats;
    }
  }

  // ---------------------------------------------------------------------
  // Switch chains
  // ---------------------------------------------------------------------

  /** The last switch of the run, if any. */
  function LastSwitch(steps: seq<Step>): Option<Step> {
    if steps == [] then None
    else if steps[|steps| - 1].Switch? then Some(steps[|steps| - 1])
    else LastSwitch(steps[..|steps| - 1])
  }

  lemma LastIsSwitch(steps: seq<Step>)
    ensures LastSwitch(steps).Some? ==> LastSwitch(steps).value.Switch?
  {
  }

  function FirstTime(steps: seq<Step>): int {
    if steps == [] then 0
    else if LastSwitch(steps[..|steps| - 1]).Some? then FirstTime(steps[..|steps| - 1])
    else if steps[|steps| - 1].Switch? then steps[|steps| - 1].ts
    else 0
  }

  function LastTime(steps: seq<Step>): int {
    LastIsSwitch(steps);
    if LastSwitch(steps).None? then 0 else LastSwitch(steps).value.ts
  }

  /** One processor's history: each switch leaves the process the one before it entered, at no earlier time. */
  predicate Chain(steps: seq<Step>) {
    steps == [] ||
    var init, step := steps[..|steps| - 1], steps[|steps| - 1];
    LastIsSwitch(init);
    && Chain(init)
    && (step.Switch? && LastSwitch(init).Some? ==>
          step.pid == LastSwitch(init).value.next && step.ts >= LastSwitch(init).value.ts)
  }

  /** The intervals that end with state 0, added up. */
  function Counted(steps: seq<Step>): int {
    if steps == [] then 0
    else
      var init, step := steps[..|steps| - 1], steps[|steps| - 1];
      Counted(init) +
      if step.Switch? && step.prevState == 0 && LastSwitch(init).Some? then step.ts - LastTime(init) else 0
  }

  ghost predicate Inv(s: State, steps: seq<Step>) {
    LastIsSwitch(steps);
    && Total(s.stats) == Counted(steps) <= LastTime(steps) - FirstTime(steps)
    && match LastSwitch(steps)
       case None => s.lastRun == map[]
       case Some(last) => last.next in s.lastRun && s.lastRun[last.next] == last.ts
  }

  lemma SwitchKeepsInv(s: State, steps: seq<Step>, step: Step)
    requires Inv(s, steps) && step.Switch? && Chain(steps + [step])
    requires LastTime(steps + [step]) - FirstTime(steps + [step]) <= MAX_SPAN
    ensures Inv(Apply(s, step), steps + [step])
  {
    assert (steps + [step])[..|steps|] == steps;
    LastIsSwitch(steps);
    if step.prevState == 0 && LastSwitch(steps).Some? {
      var run := step.ts - LastTime(steps);
      AddRunTotal(s.stats, step.pid, run);
    }
  }

  lemma AddRunTotal(stats: map<nat, Usage>, pid: nat, run: nat)
    requires Total(stats) + run <= MAX_SPAN
    ensures Total(AddRun(stats, pid, run)) == Total(stats) + run
  {
    if pid in stats {
      TotalWithout(stats, pid);
    }
    TotalUpdate(stats, pid, AddRun(stats, pid, run)[pid]);
  }

  lemma WakeUpKeepsInv(s: State, steps: seq<Step>, step: Step)
    requires Inv(s, steps) && step.WakeUp?
    ensures Inv(Apply(s, step), steps + [step])
  {
    assert (steps + [step])[..|steps|] == steps;
    TotalUpdate(s.stats, step.pid, AddWakeUp(s.stats, step.pid, step.latency)[step.pid]);
  }

  lemma {:induction false} ChainKeepsInv(steps: seq<Step>)
    requires Chain(steps) && LastTime(steps) - FirstTime(steps) <= MAX_SPAN
    ensures Inv(Exec(steps), steps) && FirstTime(steps) <= LastTime(steps)
    decreases |steps|
  {
    if steps != [] {
      var init, step := steps[..|steps| - 1], steps[|steps| - 1];
      assert steps == init + [step];
      LastIsSwitch(init);
      ChainKeepsInv(init);
      if step.Switch? {
        SwitchKeepsInv(Exec(init), init, step);
      } else {
        WakeUpKeepsInv(Exec(init), init, step);
      }
    }
  }

  /**
   * On every fresh, time-ordered chain of switches, wake-ups anywhere between
   * them, the run time of all processes together is the sum of the intervals
   * that ended with state 0, and at most the time from first to last switch.
   */
  lemma RunTimeConserved(steps: seq<Step>)
    requires Chain(steps) && LastTime(steps) - FirstTime(steps) <= MAX_SPAN
    ensures Total(Exec(steps).stats) == Counted(steps) <= LastTime(steps) - FirstTime(steps)
  {
    ChainKeepsInv(steps);
  }

  // ---------------------------------------------------------------------
  // One process, on any number of processors
  // ---------------------------------------------------------------------

  /** The instants from `lo` until `hi`. */
  function Range(lo: int, hi: int): (r: set<int>)
    ensures forall t :: t in r <==> lo <= t < hi
    ensures |r| == if lo <= hi then hi - lo else 0
    decreases if lo < hi then hi - lo else 0
  {
    if lo >= hi then {} else Range(lo, hi - 1) + {hi - 1}
  }

  /**
   * What a run says about one process: when it was last switched in, when it
   * last gave up the processor with state 0, the time it is credited, the
   * instants it was busy, and whether it ever gave up the processor with its
   * last entry earlier than its exit before.
   */
  datatype Life = Life(entered: Option<int>, left: Option<int>, credit: int, busy: set<int>, stale: bool)

  const UNSEEN := Life(None, None, 0, {}, false)

  predicate Stale(l: Life) {
    l.entered.Some? && l.left.Some? && l.entered.value < l.left.value
  }

  function Leave(l: Life, ts: int): Life
    requires l.entered.Some?
  {
    Life(l.entered, Some(ts), l.credit + (ts - l.entered.value), l.busy + Range(l.entered.value, ts),
         l.stale || Stale(l))
  }

  function Live(l: Life, step: Step, pid: nat): Life {
    if step.WakeUp? then l
    else
      var out := if step.pid == pid && step.prevState == 0 && l.entered.Some? then Leave(l, step.ts) else l;
      if step.next == pid then out.(entered := Some(step.ts)) else out
  }

  function LifeOf(steps: seq<Step>, pid: nat): Life {
    if steps == [] then UNSEEN else Live(LifeOf(steps[..|steps| - 1], pid), steps[|steps| - 1], pid)
  }

  predicate Ordered(steps: seq<Step>) {
    forall i, j | 0 <= i < j < |steps| :: steps[i].Switch? && steps[j].Switch? ==> steps[i].ts <= steps[j].ts
  }

  /** Until `now`, the credit exceeds the busy time exactly when an exit was stale. */
  ghost predicate Accounts(l: Life, now: int) {
    && (l.entered.Some? ==> l.entered.value <= now)
    && (l.left.Some? ==>
          && l.left.value <= now && l.entered.Some?
          && (forall t | t in l.busy :: t < l.left.value)
          && Range(l.entered.value, l.left.value) <= l.busy)
    && (l.left.None? ==> l.busy == {})
    && l.credit >= |l.busy|
    && (l.credit == |l.busy| <==> !l.stale)
  }

  /** An interval that begins inside or after the busy time adds the part of it that comes after. */
  lemma BusyAfter(busy: set<int>, lo: int, left: int, hi: int)
    requires (forall t | t in busy :: t < left) && Range(lo, left) <= busy && lo <= hi && left <= hi
    ensures |busy + Range(lo, hi)| == |busy| + hi - (if lo < left then left else lo)
  {
    var from := if lo < left then left else lo;
    assert busy !! Range(from, hi);
    assert busy + Range(lo, hi) == busy + Range(from, hi);
  }

  lemma LeaveAccounts(l: Life, now: int, ts: int)
    requires Accounts(l, now) && now <= ts && l.entered.Some?
    ensures Accounts(Leave(l, ts), ts)
  {
    BusyAfter(l.busy, l.entered.value, if l.left.Some? then l.left.value else l.entered.value, ts);
  }

  lemma EnterAccounts(l: Life, ts: int)
    requires Accounts(l, ts)
    ensures Accounts(l.(entered := Some(ts)), ts)
  {
    assert l.left.Some? ==> Range(ts, l.left.value) == {};
  }

  lemma LiveAccounts(l: Life, step: Step, pid: nat, now: int)
    requires Accounts(l, now) && step.Switch? && now <= step.ts
    ensures Accounts(Live(l, step, pid), step.ts)
  {
    var out := if step.pid == pid && step.prevState == 0 && l.entered.Some? then Leave(l, step.ts) else l;
    if step.pid == pid && step.prevState == 0 && l.entered.Some? {
      LeaveAccounts(l, now, step.ts);
    }
    assert Accounts(out, step.ts);
    EnterAccounts(out, step.ts);
  }

  lemma {:induction false} LifeAccounts(steps: seq<Step>, pid: nat, now: int)
    requires Ordered(steps) && forall i | 0 <= i < |steps| :: steps[i].Switch? ==> steps[i].ts <= now
    ensures Accounts(LifeOf(steps, pid), now)
    decreases |steps|
  {
    if steps != [] {
      var init, step := steps[..|steps| - 1], steps[|steps| - 1];
      if step.Switch? {
        LifeAccounts(init, pid, step.ts);
        LiveAccounts(LifeOf(init, pid), step, pid, step.ts);
      } else {
        LifeAccounts(init, pid, now);
      }
    }
  }

  /** The table's view of the process agrees with `l`. */
  predicate Recorded(s: State, l: Life, pid: nat) {
    && (pid in s.lastRun <==> l.entered.Some?)
    && (pid in s.lastRun ==> s.lastRun[pid] == l.entered.value)
    && RunTimeOf(s.stats, pid) == l.credit % U64
  }

  function RunTimeOf(stats: map<nat, Usage>, pid: nat): nat {
    if pid in stats then stats[pid].runTime else 0
  }

  predicate Within(steps: seq<Step>, start: int) {
    forall i | 0 <= i < |steps| :: steps[i].Switch? ==> start <= steps[i].ts <= start + MAX_SPAN
  }

  lemma AddRunTime(stats: map<nat, Usage>, pid: nat, start: int, end: int, credit: int)
    requires RunTimeOf(stats, pid) == credit % U64
    requires -0x8000_0000_0000_0000 <= end - start <= 0x7FFF_FFFF_FFFF_FFFF
    ensures RunTimeOf(AddRun(stats, pid, Elapsed(start, end)), pid) == (credit + (end - start)) % U64
  {
  }

  lemma SwitchRecorded(s: State, l: Life, step: Step, pid: nat)
    requires Recorded(s, l, pid) && step.Switch?
    requires l.entered.Some? ==> -0x8000_0000_0000_0000 <= step.ts - l.entered.value <= 0x7FFF_FFFF_FFFF_FFFF
    ensures Recorded(Apply(s, step), Live(l, step, pid), pid)
  {
    if step.pid == pid && step.prevState == 0 && l.entered.Some? {
      AddRunTime(s.stats, pid, l.entered.value, step.ts, l.credit);
    }
  }

  lemma {:induction false} LifeRecorded(steps: seq<Step>, pid: nat, start: int)
    requires Within(steps, start)
    ensures Recorded(Exec(steps), LifeOf(steps, pid), pid)
    ensures LifeOf(steps, pid).entered.Some? ==> start <= LifeOf(steps, pid).entered.value <= start + MAX_SPAN
    decreases |steps|
  {
    if steps != [] {
      var init, step := steps[..|steps| - 1], steps[|steps| - 1];
      LifeRecorded(init, pid, start);
      if step.Switch? {
        SwitchRecorded(Exec(init), LifeOf(init, pid), step, pid);
      }
    }
  }

  /**
   * On any number of processors, with switches recorded in time order, a
   * process's run time is the sum of its counted intervals. It is the time the
   * process was busy exactly when the last entry before every counted exit is
   * no earlier than the counted exit before; otherwise it is more.
   */
  lemma RunTimeIsBusyTimeIff(steps: seq<Step>, pid: nat, start: int)
    requires Ordered(steps) && Within(steps, start)
    ensures Recorded(Exec(steps), LifeOf(steps, pid), pid)
    ensures var l := LifeOf(steps, pid); l.credit >= |l.busy| && (l.credit == |l.busy| <==> !l.stale)
  {
    LifeRecorded(steps, pid, start);
    LifeAccounts(steps, pid, start + MAX_SPAN);
  }

  // ---------------------------------------------------------------------
  // The other counters
  // ---------------------------------------------------------------------

  /** How often the process was woken up. */
  function WakeUps(steps: seq<Step>, pid: nat): nat {
    if steps == [] then 0
    else
      var last := steps[|steps| - 1];
      WakeUps(steps[..|steps| - 1], pid) + if last.WakeUp? && last.pid == pid then 1 else 0
  }

  /** How long it waited for that, in all. */
  function Waited(steps: seq<Step>, pid: nat): nat {
    if steps == [] then 0
    else
      var last := steps[|steps| - 1];
      Waited(steps[..|steps| - 1], pid) + if last.WakeUp? && last.pid == pid then last.latency else 0
  }

  /** How often it gave up the processor with state 0 after having been switched in. */
  function Exits(steps: seq<Step>, pid: nat): nat {
    if steps == [] then 0
    else
      var init, last := steps[..|steps| - 1], steps[|steps| - 1];
      Exits(init, pid) +
      if last.Switch? && last.pid == pid && last.prevState == 0 && Entered(init, pid) then 1 else 0
  }

  /** It was switched in at least once. */
  predicate Entered(steps: seq<Step>, pid: nat) {
    exists i | 0 <= i < |steps| :: steps[i].Switch? && steps[i].next == pid
  }

  function UsageOf(stats: map<nat, Usage>, pid: nat): Usage {
    if pid in stats then stats[pid] else Usage(0, 0, 0, 0)
  }

  lemma {:induction false} LastRunIff(steps: seq<Step>, pid: nat)
    ensures pid in Exec(steps).lastRun <==> Entered(steps, pid)
    decreases |steps|
  {
    if steps != [] {
      var n := |steps| - 1;
      LastRunIff(steps[..n], pid);
      if Entered(steps[..n], pid) {
        var i :| 0 <= i < n && steps[..n][i].Switch? && steps[..n][i].next == pid;
        assert steps[i].Switch? && steps[i].next == pid;
      }
      if Entered(steps, pid) && !(steps[n].Switch? && steps[n].next == pid) {
        var i :| 0 <= i < |steps| && steps[i].Switch? && steps[i].next == pid;
        assert steps[..n][i] == steps[i];
      }
    }
  }

  /** In every run the counters are, modulo 2^64, the wake-ups, the waiting and the exits of the process. */
  lemma {:induction false} CountersAre(steps: seq<Step>, pid: nat)
    ensures var u := UsageOf(Exec(steps).stats, pid);
            && u.wakeUps == WakeUps(steps, pid) % U64 && u.wakeLatency == Waited(steps, pid) % U64
            && u.switches == Exits(steps, pid) % U64
    ensures pid in Exec(steps).stats <==> WakeUps(steps, pid) + Exits(steps, pid) > 0
    decreases |steps|
  {
    if steps != [] {
      var n := |steps| - 1;
      CountersAre(steps[..n], pid);
      LastRunIff(steps[..n], pid);
      AddModulo(WakeUps(steps[..n], pid), 1);
      AddModulo(Exits(steps[..n], pid), 1);
      if steps[n].WakeUp? {
        AddModulo(Waited(steps[..n], pid), steps[n].latency);
      }
    }
  }

  /** Durations stop at 2^63 - 1 nanoseconds one way and 2^63 the other, which reads as 2^63 unsigned. */
  lemma ElapsedIs(start: int, end: int)
    ensures end - start > 0x7FFF_FFFF_FFFF_FFFF ==> Elapsed(start, end) == 0x7FFF_FFFF_FFFF_FFFF
    ensures end - start < -0x8000_0000_0000_0000 ==> Elapsed(start, end) == 0x8000_0000_0000_0000
    ensures 0 <= end - start <= 0x7FFF_FFFF_FFFF_FFFF ==> Elapsed(start, end) == end - start
    ensures -0x8000_0000_0000_0000 <= end - start < 0 ==>
              Elapsed(start, end) == 0x1_0000_0000_0000_0000 + (end - start)
  {
  }

  /**
   * Off a chain the bound fails: a process that was switched in once and out
   * twice (on two processors) is credited its time twice.
   */
  lemma StaleStartCountsTwice(a: nat, b: nat)
    requires a != b
    ensures Total(Exec([Switch(a, b, 0, 0), Switch(b, a, 0, 10), Switch(b, a, 0, 20)]).stats) == 30
  {
    var s1 := [Switch(a, b, 0, 0)];
    var s2 := s1 + [Switch(b, a, 0, 10)];
    var s3 := s2 + [Switch(b, a, 0, 20)];
    assert s1[..0] == [] && s2[..1] == s1 && s3[..2] == s2;
    assert Exec(s1) == State(map[], map[b := 0]);
    assert Exec(s2).stats == map[b := Usage(10, 1, 0, 0)] && Exec(s2).lastRun[b] == 0;
    assert Exec(s3).stats == map[b := Usage(30, 2, 0, 0)];
    TotalWithout(Exec(s3).stats, b);
    assert Exec(s3).stats - {b} == map[];
    assert s3 == [Switch(a, b, 0, 0), Switch(b, a, 0, 10), Switch(b, a, 0, 20)];
  }

  // ---------------------------------------------------------------------
  // The busiest processes
  // ---------------------------------------------------------------------

  predicate Descending(list: seq<(nat, Usage)>) {
    forall i, j | 0 <= i < j < |list| :: list[i].1.runTime >= list[j].1.runTime
  }

  /** Puts an entry in its place. */
  function Insert(list: seq<(nat, Usage)>, e: (nat, Usage)): (r: seq<(nat, Usage)>)
    requires Descending(list)
    ensures Descending(r) && multiset(r) == multiset(list) + multiset{e}
  {
    if list == [] then [e]
    else if list[0].1.runTime <= e.1.runTime then
      InsertFirst(list, e);
      [e] + list
    else
      var r := Insert(list[1..], e);
      InsertRest(list, e, r);
      [list[0]] + r
  }

  lemma InsertFirst(list: seq<(nat, Usage)>, e: (nat, Usage))
    requires Descending(list) && list != [] && list[0].1.runTime <= e.1.runTime
    ensures Descending([e] + list) && multiset([e] + list) == multiset(list) + multiset{e}
  {
    assert forall i | 0 <= i < |list| :: list[0].1.runTime >= list[i].1.runTime;
  }

  lemma InsertRest(list: seq<(nat, Usage)>, e: (nat, Usage), r: seq<(nat, Usage)>)
    requires Descending(list) && list != [] && list[0].1.runTime > e.1.runTime
    requires Descending(r) && multiset(r) == multiset(list[1..]) + multiset{e}
    ensures Descending([list[0]] + r) && multiset([list[0]] + r) == multiset(list) + multiset{e}
  {
    assert list == [list[0]] + list[1..];
    forall i | 0 <= i < |r|
      ensures list[0].1.runTime >= r[i].1.runTime
    {
      assert r[i] in multiset(r);
      assert r[i] in list[1..] || r[i] == e;
    }
  }

  /** `top` are the busiest `n` entries of `stats`: no entry left out has more run time than one listed. */
  ghost predicate IsTop(stats: map<nat, Usage>, n: nat, top: seq<(nat, Usage)>, rest: seq<(nat, Usage)>) {
    && multiset(top + rest) == multiset(stats.Items)
    && Descending(top + rest)
    && (|top| == n || (|top| < n && rest == []))
  }

  class Analyzer {
    var pidStats: map<nat, Usage>
    var lastRunTime: map<nat, int>

    ghost function View(): State
      reads this
    {
      State(pidStats, lastRunTime)
    }

    constructor ()
      ensures View() == FRESH
    {
      pidStats, lastRunTime := map[], map[];
    }

    method RecordSwitch(pid: nat, next: nat, prevState: int, ts: int)
      modifies this
      ensures View() == Apply(old(View()), Switch(pid, next, prevState, ts))
    {
      if prevState == 0 {
        if pid in lastRunTime {
          var runTime := Elapsed(lastRunTime[pid], ts);
          if pid in pidStats {
            var stat := pidStats[pid];
            pidStats := pidStats[pid := stat.(runTime := (stat.runTime + runTime) % U64,
                                              switches := (stat.switches + 1) % U64)];
          } else {
            pidStats := pidStats[pid := Usage(runTime, 1, 0, 0)];
          }
        }
      }
      lastRunTime := lastRunTime[next := ts];
    }

    method RecordWakeUp(pid: nat, latency: nat)
      modifies this
      ensures View() == Apply(old(View()), WakeUp(pid, latency))
    {
      if pid in pidStats {
        var stat := pidStats[pid];
        pidStats := pidStats[pid := stat.(wakeUps := (stat.wakeUps + 1) % U64,
                                          wakeLatency := (stat.wakeLatency + latency) % U64)];
      } else {
        pidStats := pidStats[pid := Usage(0, 0, 1, latency % U64)];
      }
    }

    /** GetTopCPUUsage; a negative count ends the goroutine with an out-of-range slice. */
    method GetTop(n: int) returns (top: Option<seq<(nat, Usage)>>, ghost rest: seq<(nat, Usage)>)
      ensures top.None? <==> n < 0
      ensures top.Some? ==> IsTop(pidStats, n, top.value, rest)
    {
      var list: seq<(nat, Usage)> := [];
      var items := pidStats.Items;
      while items != {}
        invariant Descending(list)
        invariant multiset(list) + multiset(items) == multiset(pidStats.Items)
        decreases items
      {
        var e :| e in items;
        list := Insert(list, e);
        items := items - {e};
      }
      assert multiset(list) == multiset(pidStats.Items);
      rest := [];
      ghost var full := list;
      if |list| > n {
        if n < 0 {
          return None, [];
        }
        rest := list[n..];
        list := list[..n];
      }
      top := Some(list);
      assert list + rest == full;
    }
  }
}
