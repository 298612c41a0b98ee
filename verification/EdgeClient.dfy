/**
 * The edge client on the heap: the batch is a slice of a backing array that
 * appends reuse, a flush copies it out and cuts the slice to length zero, and
 * a failed POST makes the snapshot the batch again.
 */
module EdgeClient {
  import opened EdgeProtocol
  import opened Subsequence

  datatype Event = Event(category: string, details: string)

  // ---------------------------------------------------------------------
  // Sampling
  // ---------------------------------------------------------------------

  /** Share of a category's events that is kept. */
  function Rate(category: string): real {
    if category == "file_events" then 0.01
    else if category == "network_events" then 0.10
    else if category == "process_events" then 0.10
    else if category == "security_events" then 1.0
    else if category == "syscall" then 0.001
    else 1.0
  }

  /** `coin` is the random number drawn from [0, 1). */
  predicate ShouldSample(category: string, coin: real) {
    Rate(category) >= 1.0 || coin < Rate(category)
  }

  function Sampled(events: seq<Event>, coins: seq<real>): (r: seq<Event>)
    requires |coins| == |events|
    ensures IsSubsequence(r, events)
    ensures (forall e | e in events :: Rate(e.category) >= 1.0) ==> r == events
  {
    if events == [] then []
    else
      var n := |events| - 1;
      var rest := Sampled(events[..n], coins[..n]);
      assert events == events[..n] + [events[n]];
      if ShouldSample(events[n].category, coins[n]) then
        Extend(rest, events[..n], [events[n]]);
        rest + [events[n]]
      else
        rest
  }

  /** The rates of the table; any other category is kept whole. */
  lemma Rates(category: string)
    ensures Rate("file_events") == 0.01 && Rate("network_events") == 0.1 && Rate("process_events") == 0.1
    ensures Rate("syscall") == 0.001 && Rate("security_events") == 1.0
    ensures category !in {"file_events", "network_events", "process_events", "syscall"} ==> Rate(category) == 1.0
  {
  }

  /** With coins from [0, 1), exactly the events whose coin is below their rate are kept. */
  lemma SampleOne(events: seq<Event>, coins: seq<real>, e: Event, coin: real)
    requires |coins| == |events| && 0.0 <= coin < 1.0
    ensures Sampled(events + [e], coins + [coin]) ==
            Sampled(events, coins) + if coin < Rate(e.category) then [e] else []
  {
    assert (events + [e])[..|events|] == events && (coins + [coin])[..|coins|] == coins;
  }

  method Sample(events: seq<Event>, coins: seq<real>) returns (filtered: seq<Event>)
    requires |coins| == |events|
    ensures filtered == Sampled(events, coins)
  {
    filtered := [];
    var i := 0;
    while i < |events|
      invariant 0 <= i <= |events|
      invariant filtered == Sampled(events[..i], coins[..i])
    {
      assert events[..i + 1][..i] == events[..i] && coins[..i + 1][..i] == coins[..i];
      if ShouldSample(events[i].category, coins[i]) {
        filtered := filtered + [events[i]];
      }
      i := i + 1;
    }
    assert events[..i] == events && coins[..i] == coins;
  }

  // ---------------------------------------------------------------------
  // The client
  // ---------------------------------------------------------------------

  /** A thread; while posting it holds the array its flush copied the batch into. */
  datatype Worker = Free | MustFlush(added: nat) | InPost(snapshot: array<Event>)

  ghost function Snapshots(workers: seq<Worker>): set<array<Event>> {
    set w | w in workers && w.InPost? :: w.snapshot
  }

  /** The worker is at the protocol's step, and its snapshot still holds what the flush copied. */
  ghost predicate Matches(w: Worker, th: Thread<Event>)
    reads if w.InPost? then {w.snapshot} else {}
  {
    match w
    case Free => th == Idle
    case MustFlush(added) => th == WillFlush(added)
    case InPost(snapshot) => th == Posting(snapshot[..])
  }

  /** A new array holding `a` and then `b`, with `spare` places left. */
  method NewArray(a: seq<Event>, b: seq<Event>, spare: nat) returns (r: array<Event>)
    ensures fresh(r) && r.Length == |a| + |b| + spare && r[..|a| + |b|] == a + b
  {
    r := new Event[|a| + |b| + spare](_ => Event("", ""));
    CopyInto(a, r, 0);
    CopyInto(b, r, |a|);
    assert r[..0] + a == a;
  }

  class Client {
    var buffer: array<Event>
    var length: nat
    var workers: seq<Worker>
    ghost var threads: seq<Thread<Event>>
    ghost var accepted: seq<Event>
    ghost var acked: seq<Event>
    ghost var dropped: seq<Event>

    /**
     * The batch never shares its array with a snapshot in flight, nor do two
     * snapshots, and every snapshot in flight is as its flush took it.
     */
    ghost predicate Valid()
      reads this, Snapshots(workers)
    {
      && length <= buffer.Length
      && |threads| == |workers|
      && (forall i | 0 <= i < |workers| :: Matches(workers[i], threads[i]))
      && (forall i | 0 <= i < |workers| && workers[i].InPost? :: workers[i].snapshot != buffer)
      && (forall i, j | 0 <= i < j < |workers| && workers[i].InPost? && workers[j].InPost? ::
            workers[i].snapshot != workers[j].snapshot)
    }

    /** The client as a state of the protocol. */
    ghost function View(): State<Event>
      reads this, buffer, Snapshots(workers)
      requires Valid()
    {
      State(buffer[..length], threads, accepted, acked, dropped)
    }

    constructor (n: nat)
      ensures Valid() && fresh(buffer) && View() == Init<Event>(n)
    {
      buffer := new Event[2000](_ => Event("", ""));
      length := 0;
      workers := seq(n, _ => Free);
      threads := seq(n, _ => Idle);
      accepted, acked, dropped := [], [], [];
    }

    /** Go's append: in place while the array has room, else into a new one with `spare` places left. */
    method Append(events: seq<Event>, spare: nat)
      requires Valid()
      modifies this`buffer, this`length, buffer
      ensures Valid() && (buffer == old(buffer) || fresh(buffer))
      ensures buffer[..length] == old(buffer[..length]) + events
    {
      ghost var before := buffer[..length];
      if length + |events| > buffer.Length {
        buffer := NewArray(buffer[..length], events, spare);
      } else {
        CopyInto(events, buffer, length);
      }
      length := length + |events|;
      assert buffer[..length] == before + events;
    }

    /** The critical section of WriteEvent and WriteBatch, for events that passed sampling. */
    method Write(t: nat, events: seq<Event>, spare: nat)
      requires Valid() && Enabled(View(), Add(t, events))
      modifies this, buffer
      ensures Valid() && (buffer == old(buffer) || fresh(buffer))
      ensures View() == Apply(old(View()), Add(t, events))
    {
      Append(events, spare);
      if length >= FLUSH_AT {
        workers, threads := workers[t := MustFlush(|events|)], threads[t := WillFlush(|events|)];
      } else {
        workers, threads := workers[t := Free], threads[t := Idle];
      }
      accepted := accepted + events;
    }

    /** The first critical section of flush: copy the batch out, then cut the slice, keeping its array. */
    method BeginFlush(t: nat)
      requires Valid() && Enabled(View(), Begin(t))
      modifies this
      ensures Valid() && buffer == old(buffer)
      ensures View() == Apply(old(View()), Begin(t))
    {
      if length == 0 {
        workers, threads := workers[t := Free], threads[t := Idle];
      } else {
        var events := NewArray(buffer[..length], [], 0);
        assert events[..] == buffer[..length];
        workers, threads := workers[t := InPost(events)], threads[t := Posting(events[..])];
        length := 0;
        assert buffer[..0] == [];
      }
    }

    method FinishFlush(t: nat)
      requires Valid() && Enabled(View(), Succeed(t))
      modifies this
      ensures Valid() && buffer == old(buffer)
      ensures View() == Apply(old(View()), Succeed(t))
    {
      acked := acked + workers[t].snapshot[..];
      workers, threads := workers[t := Free], threads[t := Idle];
    }

    /** Go's append of the batch to a slice that fills its array: a new array, unless the batch is empty. */
    method Rejoin(events: array<Event>, spare: nat)
      requires length <= buffer.Length
      modifies this`buffer, this`length
      ensures length <= buffer.Length && (buffer == events || fresh(buffer))
      ensures buffer[..length] == old(events[..]) + old(buffer[..length])
    {
      ghost var joined := events[..] + buffer[..length];
      if length == 0 {
        buffer, length := events, events.Length;
      } else {
        buffer := NewArray(events[..], buffer[..length], spare);
        length := events.Length + length;
      }
      assert buffer[..length] == joined;
    }

    /**
     * The critical section after a failed POST. The snapshot has no spare
     * places, so appending a nonempty batch moves both into a new array;
     * appending an empty one leaves the snapshot itself as the batch.
     */
    method Requeue(t: nat, spare: nat)
      requires Valid() && Enabled(View(), Refuse(t))
      modifies this
      ensures Valid() && (buffer == old(workers[t].snapshot) || fresh(buffer))
      ensures View() == Apply(old(View()), Refuse(t))
    {
      var events := workers[t].snapshot;
      ghost var joined := events[..] + buffer[..length];
      workers, threads := workers[t := Free], threads[t := Idle];
      Rejoin(events, spare);
      assert buffer[..length] == joined;
      dropped := dropped + Rest(joined, CAP);
      if length > CAP {
        length := CAP;
      }
      assert buffer[..length] == Take(joined, CAP);
    }

    /** flush, by a thread that nothing interrupts; `ok` is the answer to its POST. */
    method Flush(t: nat, ok: bool, spare: nat)
      requires Valid() && t < |workers| && !workers[t].InPost?
      modifies this
      ensures Valid() && View() == FlushCall(old(View()), t, ok)
    {
      BeginFlush(t);
      if workers[t].InPost? {
        if ok {
          FinishFlush(t);
        } else {
          Requeue(t, spare);
        }
      }
    }

    /** WriteBatch, by a thread that nothing interrupts; WriteEvent is the case of one event. */
    method WriteBatch(t: nat, events: seq<Event>, coins: seq<real>, ok: bool, spare: nat)
      requires Valid() && t < |workers| && workers[t].Free? && |coins| == |events|
      modifies this, buffer
      ensures Valid() && View() == WriteCall(old(View()), t, Sampled(events, coins), ok)
    {
      var filtered := Sample(events, coins);
      if |filtered| == 0 {
        return;
      }
      Write(t, filtered, spare);
      if workers[t].MustFlush? {
        Flush(t, ok, spare);
      }
    }
  }

  method CopyInto(events: seq<Event>, target: array<Event>, at: nat)
    requires at + |events| <= target.Length
    modifies target
    ensures target[..at] == old(target[..at])
    ensures target[at..at + |events|] == events
    ensures target[..at + |events|] == old(target[..at]) + events
  {
    ghost var before := target[..at];
    for i := 0 to |events|
      invariant target[..at + i] == before + events[..i]
    {
      target[at + i] := events[i];
      assert target[..at + i + 1] == target[..at + i] + [events[i]];
    }
    assert events[..|events|] == events;
    assert target[..at + |events|][..at] == before;
    assert target[..at + |events|][at..] == events;
  }
}
