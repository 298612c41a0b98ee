/**
 * The edge client as a concurrent protocol. Any number of threads (writers,
 * the ticker, explicit flushes) take atomic steps, one critical section or
 * one POST outcome each, in any order.
 */
module EdgeProtocol {
  import opened Subsequence

  /** A batch this long makes its writer flush. */
  const FLUSH_AT: nat := 2000

  /** Longest batch kept after a failed POST. */
  const CAP: nat := 10000

  /** What a thread does next: nothing, begin the flush its write called for, or learn its POST's fate. */
  datatype Thread<+E> = Idle | WillFlush(added: nat) | Posting(events: seq<E>)

  /** The shared batch and the threads; the other fields only record the run's history. */
  datatype State<+E> = State(batch: seq<E>, threads: seq<Thread<E>>,
                             accepted: seq<E>, acked: seq<E>, dropped: seq<E>)

  datatype Step<+E> =
    | Add(t: nat, events: seq<E>)  // append to the batch
    | Begin(t: nat)                // snapshot and clear the batch
    | Succeed(t: nat)              // the POST was answered 200
    | Refuse(t: nat)               // the POST failed: put the snapshot back, then cap

  function Init<E>(n: nat): (s: State<E>) {
    State([], seq(n, _ => Idle), [], [], [])
  }

  predicate Enabled<E>(s: State<E>, step: Step<E>) {
    && step.t < |s.threads|
    && match step
       case Add(t, events) => s.threads[t].Idle? && events != []
       case Begin(t) => !s.threads[t].Posting?
       case Succeed(t) => s.threads[t].Posting?
       case Refuse(t) => s.threads[t].Posting?
  }

  function Take<E>(s: seq<E>, n: nat): seq<E> {
    if |s| <= n then s else s[..n]
  }

  function Rest<E>(s: seq<E>, n: nat): seq<E> {
    if |s| <= n then [] else s[n..]
  }

  function Apply<E>(s: State<E>, step: Step<E>): State<E>
    requires Enabled(s, step)
  {
    match step
    case Add(t, events) =>
      var batch := s.batch + events;
      s.(batch := batch, accepted := s.accepted + events,
         threads := s.threads[t := if |batch| >= FLUSH_AT then WillFlush(|events|) else Idle])
    case Begin(t) =>
      if s.batch == [] then s.(threads := s.threads[t := Idle])
      else s.(batch := [], threads := s.threads[t := Posting(s.batch)])
    case Succeed(t) =>
      s.(acked := s.acked + s.threads[t].events, threads := s.threads[t := Idle])
    case Refuse(t) =>
      var joined := s.threads[t].events + s.batch;
      s.(batch := Take(joined, CAP), dropped := s.dropped + Rest(joined, CAP), threads := s.threads[t := Idle])
  }

  /** The steps can be taken one after another from `s`. */
  predicate Runs<E>(s: State<E>, steps: seq<Step<E>>)
    decreases |steps|
  {
    steps == [] || (Enabled(s, steps[0]) && Runs(Apply(s, steps[0]), steps[1..]))
  }

  function Exec<E>(s: State<E>, steps: seq<Step<E>>): State<E>
    requires Runs(s, steps)
    decreases |steps|
  {
    if steps == [] then s else Exec(Apply(s, steps[0]), steps[1..])
  }

  // ---------------------------------------------------------------------
  // Conservation
  // ---------------------------------------------------------------------

  ghost function Held<E>(th: Thread<E>): multiset<E> {
    if th.Posting? then multiset(th.events) else multiset{}
  }

  ghost function InFlight<E>(threads: seq<Thread<E>>): multiset<E> {
    if threads == [] then multiset{} else Held(threads[0]) + InFlight(threads[1..])
  }

  /** Every accepted event is in exactly one place, as often as it was accepted. */
  ghost predicate Conserved<E>(s: State<E>) {
    multiset(s.accepted) == multiset(s.batch) + InFlight(s.threads) + multiset(s.acked) + multiset(s.dropped)
  }

  /** The same, counted for one event. */
  ghost predicate Balanced<E>(s: State<E>, x: E) {
    Count(s.accepted, x) == Count(s.batch, x) + InFlight(s.threads)[x] + Count(s.acked, x) + Count(s.dropped, x)
  }

  ghost function Count<E>(s: seq<E>, x: E): nat {
    multiset(s)[x]
  }

  lemma CountConcat<E>(a: seq<E>, b: seq<E>, x: E)
    ensures Count(a + b, x) == Count(a, x) + Count(b, x)
  {
  }

  lemma CountCut<E>(s: seq<E>, n: nat, x: E)
    ensures Count(Take(s, n), x) + Count(Rest(s, n), x) == Count(s, x)
  {
    assert s == Take(s, n) + Rest(s, n);
    CountConcat(Take(s, n), Rest(s, n), x);
  }

  lemma {:induction false} InFlightUpdate<E>(threads: seq<Thread<E>>, t: nat, th: Thread<E>, x: E)
    requires t < |threads|
    ensures InFlight(threads[t := th])[x] + Held(threads[t])[x] == InFlight(threads)[x] + Held(th)[x]
    decreases |threads|
  {
    if t > 0 {
      InFlightUpdate(threads[1..], t - 1, th, x);
      assert threads[1..][t - 1] == threads[t];
      assert threads[t := th][1..] == threads[1..][t - 1 := th];
    } else {
      assert threads[t := th][1..] == threads[1..];
    }
  }

  lemma StepBalances<E>(s: State<E>, step: Step<E>, x: E)
    requires Enabled(s, step) && Balanced(s, x)
    ensures Balanced(Apply(s, step), x)
  {
    var s', th := Apply(s, step), s.threads[step.t];
    InFlightUpdate(s.threads, step.t, s'.threads[step.t], x);
    match step
    case Add(_, events) =>
      CountConcat(s.batch, events, x);
      CountConcat(s.accepted, events, x);
    case Begin(_) =>
    case Succeed(_) =>
      CountConcat(s.acked, th.events, x);
    case Refuse(_) =>
      var joined := th.events + s.batch;
      CountConcat(th.events, s.batch, x);
      CountCut(joined, CAP, x);
      CountConcat(s.dropped, Rest(joined, CAP), x);
  }

  lemma {:induction false} RunBalances<E>(s: State<E>, steps: seq<Step<E>>, x: E)
    requires Runs(s, steps) && Balanced(s, x)
    ensures Balanced(Exec(s, steps), x)
    decreases |steps|
  {
    if steps != [] {
      StepBalances(s, steps[0], x);
      RunBalances(Apply(s, steps[0]), steps[1..], x);
    }
  }

  // ---------------------------------------------------------------------
  // The bound on the batch
  // ---------------------------------------------------------------------

  function Owed<E>(th: Thread<E>): nat {
    if th.WillFlush? then th.added else 0
  }

  /** Events added by writers that saw the threshold and have not begun their flush. */
  function Pending<E>(threads: seq<Thread<E>>): nat {
    if threads == [] then 0 else Owed(threads[0]) + Pending(threads[1..])
  }

  ghost predicate Bounded<E>(s: State<E>) {
    |s.batch| <= CAP + Pending(s.threads)
  }

  lemma {:induction false} PendingUpdate<E>(threads: seq<Thread<E>>, t: nat, th: Thread<E>)
    requires t < |threads|
    ensures Pending(threads[t := th]) + Owed(threads[t]) == Pending(threads) + Owed(th)
    decreases |threads|
  {
    if t > 0 {
      PendingUpdate(threads[1..], t - 1, th);
      assert threads[1..][t - 1] == threads[t];
      assert threads[t := th][1..] == threads[1..][t - 1 := th];
    } else {
      assert threads[t := th][1..] == threads[1..];
    }
  }

  lemma StepBounded<E>(s: State<E>, step: Step<E>)
    requires Enabled(s, step) && Bounded(s)
    ensures Bounded(Apply(s, step))
  {
    PendingUpdate(s.threads, step.t, Apply(s, step).threads[step.t]);
  }

  // ---------------------------------------------------------------------
  // Every run
  // ---------------------------------------------------------------------

  lemma {:induction false} RunBounded<E>(s: State<E>, steps: seq<Step<E>>)
    requires Runs(s, steps) && Bounded(s)
    ensures Bounded(Exec(s, steps))
    decreases |steps|
  {
    if steps != [] {
      StepBounded(s, steps[0]);
      RunBounded(Apply(s, steps[0]), steps[1..]);
    }
  }

  lemma {:induction false} AllIdle<E>(threads: seq<Thread<E>>)
    requires forall i | 0 <= i < |threads| :: threads[i].Idle?
    ensures InFlight(threads) == multiset{} && Pending(threads) == 0
  {
    if threads != [] {
      AllIdle(threads[1..]);
    }
  }

  /**
   * In every interleaving of any number of threads no event is lost or
   * duplicated, and the batch holds at most the cap plus what its writers are
   * about to flush.
   */
  lemma EveryInterleaving<E(!new)>(n: nat, steps: seq<Step<E>>)
    requires Runs(Init<E>(n), steps)
    ensures Conserved(Exec(Init<E>(n), steps)) && Bounded(Exec(Init<E>(n), steps))
  {
    AllIdle(Init<E>(n).threads);
    RunBounded(Init<E>(n), steps);
    forall x: E
      ensures Balanced(Exec(Init<E>(n), steps), x)
    {
      RunBalances(Init<E>(n), steps, x);
    }
    BalancedIsConserved(Exec(Init<E>(n), steps));
  }

  lemma BalancedIsConserved<E(!new)>(s: State<E>)
    requires forall x: E :: Balanced(s, x)
    ensures Conserved(s)
  {
    var places := multiset(s.batch) + InFlight(s.threads) + multiset(s.acked) + multiset(s.dropped);
    forall x: E
      ensures multiset(s.accepted)[x] == places[x]
    {
      assert Balanced(s, x);
    }
  }

  /** Whenever no thread is between its write and its flush, the batch is within the cap. */
  lemma QuietBatchWithinCap<E(!new)>(n: nat, steps: seq<Step<E>>)
    requires Runs(Init<E>(n), steps)
    requires var s := Exec(Init<E>(n), steps); forall i | 0 <= i < |s.threads| :: !s.threads[i].WillFlush?
    ensures |Exec(Init<E>(n), steps).batch| <= CAP
  {
    EveryInterleaving(n, steps);
    NothingPending(Exec(Init<E>(n), steps).threads);
  }

  lemma {:induction false} NothingPending<E>(threads: seq<Thread<E>>)
    requires forall i | 0 <= i < |threads| :: !threads[i].WillFlush?
    ensures Pending(threads) == 0
  {
    if threads != [] {
      NothingPending(threads[1..]);
    }
  }

  // ---------------------------------------------------------------------
  // Order, with at most one POST in flight
  // ---------------------------------------------------------------------

  predicate OnePost<E>(s: State<E>) {
    forall i, j | 0 <= i < |s.threads| && 0 <= j < |s.threads| && s.threads[i].Posting? && s.threads[j].Posting? ::
      i == j
  }

  /** The run never has two POSTs in flight. */
  predicate NeverOverlaps<E>(s: State<E>, steps: seq<Step<E>>)
    requires Runs(s, steps)
    decreases |steps|
  {
    OnePost(s) && (steps == [] || NeverOverlaps(Apply(s, steps[0]), steps[1..]))
  }

  function Snapshot<E>(th: Thread<E>): seq<E> {
    if th.Posting? then th.events else []
  }

  /** All snapshots in flight, by thread. */
  function Flights<E>(threads: seq<Thread<E>>): seq<E> {
    if threads == [] then [] else Snapshot(threads[0]) + Flights(threads[1..])
  }

  /** What was acknowledged, then what is in flight, then what waits. */
  function History<E>(s: State<E>): seq<E> {
    s.acked + Flights(s.threads) + s.batch
  }

  lemma {:induction false} OnlyFlight<E>(threads: seq<Thread<E>>, t: nat)
    requires t < |threads|
    requires forall i | 0 <= i < |threads| && i != t :: !threads[i].Posting?
    ensures Flights(threads) == Snapshot(threads[t])
    decreases |threads|
  {
    if t > 0 {
      assert !threads[0].Posting?;
      OnlyFlight(threads[1..], t - 1);
    } else {
      NoFlight(threads[1..]);
    }
  }

  lemma {:induction false} NoFlight<E>(threads: seq<Thread<E>>)
    requires forall i | 0 <= i < |threads| :: !threads[i].Posting?
    ensures Flights(threads) == []
  {
    if threads != [] {
      NoFlight(threads[1..]);
    }
  }

  lemma {:induction false} FlightsSame<E>(threads: seq<Thread<E>>, t: nat, th: Thread<E>)
    requires t < |threads| && Snapshot(threads[t]) == Snapshot(th)
    ensures Flights(threads[t := th]) == Flights(threads)
    decreases |threads|
  {
    if t > 0 {
      FlightsSame(threads[1..], t - 1, th);
      assert threads[1..][t - 1] == threads[t];
      assert threads[t := th][1..] == threads[1..][t - 1 := th];
    } else {
      assert threads[t := th][1..] == threads[1..];
    }
  }

  lemma AddHistory<E>(s: State<E>, t: nat, events: seq<E>)
    requires Enabled(s, Add(t, events))
    ensures History(Apply(s, Add(t, events))) == History(s) + events
  {
    var s' := Apply(s, Add(t, events));
    FlightsSame(s.threads, t, s'.threads[t]);
    assert s.acked + Flights(s.threads) + (s.batch + events) == (s.acked + Flights(s.threads) + s.batch) + events;
  }

  lemma BeginHistory<E>(s: State<E>, t: nat)
    requires Enabled(s, Begin(t)) && OnePost(Apply(s, Begin(t)))
    ensures History(Apply(s, Begin(t))) == History(s)
  {
    var s' := Apply(s, Begin(t));
    if s.batch == [] {
      FlightsSame(s.threads, t, s'.threads[t]);
    } else {
      assert s'.threads[t].Posting?;
      forall i | 0 <= i < |s.threads| && i != t
        ensures !s.threads[i].Posting? && !s'.threads[i].Posting?
      {
        assert s'.threads[i] == s.threads[i];
      }
      OnlyFlight(s.threads, t);
      OnlyFlight(s'.threads, t);
    }
  }

  lemma SucceedHistory<E>(s: State<E>, t: nat)
    requires Enabled(s, Succeed(t)) && OnePost(s)
    ensures History(Apply(s, Succeed(t))) == History(s)
  {
    var s' := Apply(s, Succeed(t));
    OnlyFlight(s.threads, t);
    OnlyFlight(s'.threads, t);
    NothingBetween(s.acked, s.threads[t].events, s.batch);
    assert Flights(s.threads) == s.threads[t].events && Flights(s'.threads) == [];
  }

  lemma NothingBetween<E>(a: seq<E>, flight: seq<E>, batch: seq<E>)
    ensures (a + flight) + [] + batch == a + flight + batch
  {
  }

  lemma CutAfter<E>(a: seq<E>, flight: seq<E>, batch: seq<E>)
    ensures Take(a + flight + batch, |a| + CAP) == a + [] + Take(flight + batch, CAP)
    ensures Rest(a + flight + batch, |a| + CAP) == Rest(flight + batch, CAP)
  {
    assert a + flight + batch == a + (flight + batch);
    assert a + [] == a;
  }

  /** Putting a snapshot back cuts off only the newest events then held. */
  lemma RefuseHistory<E>(s: State<E>, t: nat)
    requires Enabled(s, Refuse(t)) && OnePost(s)
    ensures History(Apply(s, Refuse(t))) == Take(History(s), |s.acked| + CAP)
    ensures Apply(s, Refuse(t)).dropped == s.dropped + Rest(History(s), |s.acked| + CAP)
  {
    OnlyFlight(s.threads, t);
    OnlyFlight(Apply(s, Refuse(t)).threads, t);
    CutAfter(s.acked, s.threads[t].events, s.batch);
  }

  lemma {:induction false} RunKeepsOrder<E>(s: State<E>, steps: seq<Step<E>>)
    requires Runs(s, steps) && NeverOverlaps(s, steps) && IsSubsequence(History(s), s.accepted)
    ensures IsSubsequence(History(Exec(s, steps)), Exec(s, steps).accepted)
    decreases |steps|
  {
    if steps != [] {
      var s' := Apply(s, steps[0]);
      match steps[0] {
        case Add(t, events) =>
          AddHistory(s, t, events);
          Extend(History(s), s.accepted, events);
        case Begin(t) =>
          BeginHistory(s, t);
        case Succeed(t) =>
          SucceedHistory(s, t);
        case Refuse(t) =>
          RefuseHistory(s, t);
          Truncate(History(s), |History(s')|, s.accepted);
      }
      RunKeepsOrder(s', steps[1..]);
    }
  }

  /**
   * While POSTs do not overlap, the acknowledged events followed by the
   * snapshot in flight and the batch are the accepted events in the order they
   * were accepted, some left out.
   */
  lemma OrderKeptWithoutOverlap<E>(n: nat, steps: seq<Step<E>>)
    requires Runs(Init<E>(n), steps) && NeverOverlaps(Init<E>(n), steps)
    ensures IsSubsequence(History(Exec(Init<E>(n), steps)), Exec(Init<E>(n), steps).accepted)
  {
    NoFlight(Init<E>(n).threads);
    RunKeepsOrder(Init<E>(n), steps);
  }

  /** Both POSTs are answered 200, `i` first. */
  function AckBoth<E>(s: State<E>, i: nat, j: nat): State<E>
    requires i < |s.threads| && j < |s.threads| && i != j && s.threads[i].Posting? && s.threads[j].Posting?
  {
    Apply(Apply(s, Succeed(i)), Succeed(j))
  }

  /**
   * The condition is tight: as soon as two nonempty snapshots are in flight
   * and the accepted events are distinct, one of the two orders of answers
   * breaks the order they were accepted in.
   */
  lemma OverlapCanReorder<E>(s: State<E>, i: nat, j: nat)
    requires i < |s.threads| && j < |s.threads| && i != j
    requires s.threads[i].Posting? && s.threads[i].events != []
    requires s.threads[j].Posting? && s.threads[j].events != []
    requires forall u, v | 0 <= u < v < |s.accepted| :: s.accepted[u] != s.accepted[v]
    ensures || !IsSubsequence(History(AckBoth(s, i, j)), s.accepted)
            || !IsSubsequence(History(AckBoth(s, j, i)), s.accepted)
  {
    var a, b, n := s.threads[i].events, s.threads[j].events, |s.acked|;
    var ij, ji := History(AckBoth(s, i, j)), History(AckBoth(s, j, i));
    assert ij[n] == a[0] && ij[n + |a|] == b[0];
    assert ji[n] == b[0] && ji[n + |b|] == a[0];
    if IsSubsequence(ij, s.accepted) && IsSubsequence(ji, s.accepted) {
      var u, v := SameOrder(ij, s.accepted, n, n + |a|);
      var u', v' := SameOrder(ji, s.accepted, n, n + |b|);
    }
  }

  /** Two threads, each with the POST of its own event in flight. */
  const TWO_POSTS: State<int> := State([], [Posting([1]), Posting([2])], [1, 2], [], [])

  lemma TwoPostsReachable()
    ensures Apply(Apply(Apply(Apply(Init<int>(2), Add(0, [1])), Begin(0)), Add(1, [2])), Begin(1)) == TWO_POSTS
  {
    var s1 := Apply(Init<int>(2), Add(0, [1]));
    assert s1 == State([1], [Idle, Idle], [1], [], []);
    var s2 := Apply(s1, Begin(0));
    assert s2 == State([], [Posting([1]), Idle], [1], [], []);
    var s3 := Apply(s2, Add(1, [2]));
    assert s3 == State([2], [Posting([1]), Idle], [1, 2], [], []);
  }

  /** Answered in the other order, the two POSTs deliver 2 before 1. */
  lemma OverlapReorders()
    ensures !IsSubsequence(History(AckBoth(TWO_POSTS, 1, 0)), TWO_POSTS.accepted)
  {
    NoFlight(AckBoth(TWO_POSTS, 1, 0).threads);
    assert History(AckBoth(TWO_POSTS, 1, 0)) == [2, 1];
    if IsSubsequence([2, 1], [1, 2]) {
      var u, v := SameOrder([2, 1], [1, 2], 0, 1);
      assert false;
    }
  }

  // ---------------------------------------------------------------------
  // Whole calls, when one thread runs alone
  // ---------------------------------------------------------------------

  /** A flush whose POST is answered 200 (`ok`) or not. */
  function FlushCall<E>(s: State<E>, t: nat, ok: bool): State<E>
    requires t < |s.threads| && !s.threads[t].Posting?
  {
    var s' := Apply(s, Begin(t));
    if s'.threads[t].Idle? then s' else Apply(s', if ok then Succeed(t) else Refuse(t))
  }

  /** A write of the events that passed sampling, with the flush it may call for. */
  function WriteCall<E>(s: State<E>, t: nat, events: seq<E>, ok: bool): State<E>
    requires t < |s.threads| && s.threads[t].Idle?
  {
    if events == [] then s
    else
      var s' := Apply(s, Add(t, events));
      if s'.threads[t].WillFlush? then FlushCall(s', t, ok) else s'
  }

  /** A write posts nothing while fewer than 2000 events are held, and otherwise everything held, oldest first. */
  lemma WritePostsAt2000<E>(s: State<E>, t: nat, events: seq<E>, ok: bool)
    requires t < |s.threads| && s.threads[t].Idle? && events != []
    ensures var s', held := WriteCall(s, t, events, ok), s.batch + events;
            && s'.accepted == s.accepted + events && s'.threads == s.threads
            && (|held| < 2000 ==> s'.batch == held && s'.acked == s.acked && s'.dropped == s.dropped)
            && (|held| >= 2000 && ok ==> s'.batch == [] && s'.acked == s.acked + held && s'.dropped == s.dropped)
            && (|held| >= 2000 && !ok ==>
                  && s'.acked == s.acked
                  && s'.batch == Take(held, 10000) && s'.dropped == s.dropped + Rest(held, 10000))
  {
    var held := s.batch + events;
    assert held + [] == held;
  }

  /** Called one after another, writes and flushes keep the batch within the cap and their thread free. */
  lemma CallsWithinCap<E>(s: State<E>, t: nat, events: seq<E>, ok: bool)
    requires t < |s.threads| && s.threads[t].Idle? && |s.batch| <= CAP
    ensures var s' := WriteCall(s, t, events, ok);
            |s'.batch| <= CAP && s'.threads == s.threads && (ok ==> |s'.batch| < FLUSH_AT || s'.batch == s.batch)
    ensures var s' := FlushCall(s, t, ok);
            |s'.batch| <= CAP && s'.threads == s.threads && (ok ==> s'.batch == [])
  {
  }
}
