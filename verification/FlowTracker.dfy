/** The flow tracker as an object: a record array, an event array and two counters, updated in place. */
module FlowTracker {
  import opened Modular
  import opened FlowTable
  import opened DupAck
  import opened FlowRuns

  /** One line of /proc/net: a flow and its queue lengths. */
  datatype Entry = Entry(key: Key, rx: nat, tx: nat)

  /** What a touch that found a slot leaves behind. */
  lemma TouchResult(s: Tracker, key: Key, x: Input, ts: nat, s': Tracker)
    requires Probe(s.slots, key) < |s.slots| && |s.events| <= 2 * |s.slots|
    requires var i := Probe(s.slots, key);
             && s'.slots == s.slots[i := Absorb(Before(s, key), x, ts)]
             && s'.activeCount == s.activeCount + (if s.slots[i].active then 0 else 1)
             && s'.delivered == s.delivered
    requires var evs := EventFor(Before(s, key), x, ts);
             && (evs == [] ==> s'.events == s.events && s'.lost == s.lost)
             && (evs != [] && |s.events| < 2 * |s.slots| ==> s'.events == s.events + evs && s'.lost == s.lost)
             && (evs != [] && |s.events| == 2 * |s.slots| ==> s'.events == s.events && s'.lost == s.lost + evs)
    ensures s' == DoTouch(s, key, x, ts)
  {
    assert s.events + [] == s.events;
  }

  class FlowTracker {
    const records: array<Slot>
    const events: array<FlowEvent>
    var eventCount: nat
    var activeCount: int
    ghost var delivered: seq<FlowEvent>
    ghost var lost: seq<FlowEvent>

    ghost predicate Valid()
      reads this
    {
      events.Length == 2 * records.Length && eventCount <= events.Length
    }

    ghost function View(): Tracker
      reads this, records, events
      requires Valid()
    {
      Tracker(records[..], activeCount, events[..eventCount], delivered, lost)
    }

    constructor (maxFlows: nat)
      ensures Valid() && fresh(records) && fresh(events) && View() == Create(maxFlows)
    {
      records := new Slot[maxFlows](_ => BLANK);
      events := new FlowEvent[2 * maxFlows](_ => FlowEvent(0, NO_KEY, 0));
      eventCount, activeCount := 0, 0;
      delivered, lost := [], [];
      new;
      assert records[..] == Create(maxFlows).slots;
      assert events[..0] == [];
    }

    /** Looks the key up, then a free slot for it; the table's size means neither was found. */
    method FindRecord(key: Key) returns (i: nat)
      modifies this`activeCount, records
      ensures i == Probe(old(records[..]), key)
      ensures i == records.Length ==> records[..] == old(records[..]) && activeCount == old(activeCount)
      ensures i < records.Length ==>
                && records[..] == old(records[..])[i := old(records[i]).(key := key, active := true)]
                && activeCount == old(activeCount) + if old(records[i]).active then 0 else 1
    {
      i := 0;
      ghost var rs := records[..];
      while i < records.Length
        invariant i <= records.Length
        invariant FindKey(rs, key, 0) == FindKey(rs, key, i)
        invariant records[..] == rs && activeCount == old(activeCount)
      {
        if records[i].active && records[i].key == key {
          assert rs[i] == rs[i].(key := key, active := true);
          return;
        }
        i := i + 1;
      }
      i := 0;
      while i < records.Length
        invariant i <= records.Length
        invariant FindFree(rs, 0) == FindFree(rs, i)
        invariant records[..] == rs && activeCount == old(activeCount)
      {
        if !records[i].active {
          records[i] := records[i].(key := key, active := true);
          activeCount := activeCount + 1;
          return;
        }
        i := i + 1;
      }
    }

    /** Stores the event unless the buffer is full. */
    method AddEvent(ev: FlowEvent)
      requires eventCount <= events.Length
      modifies this`eventCount, this`lost, events
      ensures eventCount <= events.Length
      ensures old(eventCount) < events.Length ==>
                events[..eventCount] == old(events[..eventCount]) + [ev] && lost == old(lost)
      ensures old(eventCount) == events.Length ==>
                events[..eventCount] == old(events[..eventCount]) && lost == old(lost) + [ev]
    {
      if eventCount < events.Length {
        events[eventCount] := ev;
        eventCount := eventCount + 1;
      } else {
        lost := lost + [ev];
      }
    }

    /** flow_tracker_update_single: one packet of `bytes` bytes. */
    method UpdateSingle(key: Key, bytes: nat, ts: nat)
      requires Valid()
      modifies this, records, events
      ensures Valid() && View() == DoTouch(old(View()), key, Packet(bytes), ts)
    {
      ghost var s := View();
      var i := FindRecord(key);
      if i == records.Length {
        return;
      }
      records[i] := records[i].(bytes := (records[i].bytes + bytes) % U64, packets := (records[i].packets + 1) % U64,
                                lastSeen := ts);
      AddEvent(FlowEvent(ts, key, bytes));
      TouchResult(s, key, Packet(bytes), ts, View());
    }

    /** The loop body of flow_tracker_update: one reading of a flow's queues. */
    method UpdateEntry(e: Entry, ts: nat)
      requires Valid()
      modifies this, records, events
      ensures Valid() && View() == DoTouch(old(View()), e.key, Reading(e.rx, e.tx), ts)
    {
      ghost var s := View();
      var i := FindRecord(e.key);
      if i == records.Length {
        return;
      }
      var rxDelta, txDelta := 0, 0;
      if e.rx >= records[i].prevRx {
        rxDelta := e.rx - records[i].prevRx;
      }
      if e.tx >= records[i].prevTx {
        txDelta := e.tx - records[i].prevTx;
      }
      var deltaBytes := (rxDelta + txDelta) % U64;
      records[i] := records[i].(prevRx := e.rx, prevTx := e.tx, bytes := (records[i].bytes + deltaBytes) % U64,
                                packets := (records[i].packets + if deltaBytes > 0 then 1 else 0) % U64,
                                lastSeen := ts);
      if deltaBytes > 0 {
        AddEvent(FlowEvent(ts, e.key, deltaBytes));
      }
      TouchResult(s, e.key, Reading(e.rx, e.tx), ts, View());
    }

    /** flow_tracker_update: all entries, at one clock reading. */
    method Update(entries: seq<Entry>, ts: nat)
      requires Valid()
      modifies this, records, events
      ensures Valid() && View() == Exec(old(View()), ReadingSteps(entries, ts))
    {
      ghost var s := View();
      for i := 0 to |entries|
        invariant Valid() && View() == Exec(s, ReadingSteps(entries[..i], ts))
      {
        assert entries[..i + 1][..i] == entries[..i];
        assert ReadingSteps(entries[..i + 1], ts)[..i] == ReadingSteps(entries[..i], ts);
        UpdateEntry(entries[i], ts);
      }
      assert entries[..|entries|] == entries;
    }

    /** The part of flow_tracker_check_tcp_retransmit that works on the flow's record. */
    method TrackSegment(key: Key, seqNum: nat, payload: nat, synOrFin: bool, ts: nat)
      returns (found: bool, retransmit: bool)
      requires Valid()
      modifies this, records, events
      ensures Valid() && View() == DoTouch(old(View()), key, Segment(seqNum, payload, synOrFin), ts)
      ensures found == (Probe(old(records[..]), key) < records.Length)
      ensures retransmit == (found && IsRetransmit(Before(old(View()), key), Segment(seqNum, payload, synOrFin)))
    {
      ghost var s := View();
      retransmit := false;
      var i := FindRecord(key);
      found := i < records.Length;
      if !found {
        return;
      }
      if synOrFin {
        records[i] := records[i].(seqExpected := (seqNum + 1) % U32);
      } else if payload > 0 {
        if records[i].seqExpected != 0 && seqNum < records[i].seqExpected {
          retransmit := true;
          records[i] := records[i].(retransmits := (records[i].retransmits + 1) % U32);
        } else {
          records[i] := records[i].(seqExpected := (seqNum + payload) % U32);
        }
      }
      TouchResult(s, key, Segment(seqNum, payload, synOrFin), ts, View());
    }

    /** flow_tracker_check_tcp_retransmit; `ring` is what it keeps between calls. */
    method CheckRetransmit(key: Key, seqNum: nat, payload: nat, synOrFin: bool, ack: bool, ring: AckRing, ts: nat)
      returns (found: bool, retransmit: bool, dup: bool)
      requires Valid() && ring.Valid()
      modifies this, records, events, ring, ring.last
      ensures Valid() && View() == DoTouch(old(View()), key, Segment(seqNum, payload, synOrFin), ts)
      ensures found == (Probe(old(records[..]), key) < records.Length)
      ensures retransmit == (found && IsRetransmit(Before(old(View()), key), Segment(seqNum, payload, synOrFin)))
      ensures ring.Valid() && var pure := found && !synOrFin && ack && payload == 0;
              && ring.acks == old(ring.acks) + (if pure then [Ack(key, seqNum)] else [])
              && dup == (pure && Flagged(old(ring.acks), Ack(key, seqNum)))
    {
      dup := false;
      assert ring.acks + [] == ring.acks;
      found, retransmit := TrackSegment(key, seqNum, payload, synOrFin, ts);
      if found && !synOrFin && ack && payload == 0 {
        dup := ring.Check(Ack(key, seqNum));
      }
    }

    /** flow_tracker_get_events into a buffer of `max` places. */
    method GetEvents(max: nat) returns (batch: seq<FlowEvent>)
      requires Valid()
      ensures batch <= events[..eventCount] && |batch| == if eventCount < max then eventCount else max
    {
      var n := if eventCount < max then eventCount else max;
      batch := events[..n];
    }

    /** flow_tracker_flush, once the events have been handed over. */
    method Flush()
      requires Valid()
      modifies this
      ensures Valid() && View() == Apply(old(View()), Drain)
    {
      delivered := delivered + events[..eventCount];
      eventCount := 0;
      assert events[..0] == [];
    }

    /** flow_tracker_cleanup: frees the stale slots in place. */
    method Cleanup(maxAge: nat, ts: nat)
      requires Valid()
      modifies this, records
      ensures Valid() && View() == Apply(old(View()), Age(maxAge, ts))
    {
      ghost var rs := records[..];
      for i := 0 to records.Length
        invariant forall j | 0 <= j < records.Length ::
                    records[j] == if j < i && IsStale(rs[j], maxAge, ts) then rs[j].(active := false) else rs[j]
        invariant activeCount == old(activeCount) - (NumActive(rs) - NumActive(records[..]))
        invariant unchanged(`eventCount) && unchanged(`delivered) && unchanged(`lost)
      {
        ghost var now := records[..];
        if records[i].active && records[i].lastSeen > 0 && WrapSub(ts, records[i].lastSeen) > maxAge {
          records[i] := records[i].(active := false);
          activeCount := activeCount - 1;
          NumActiveUpdate(now, i, records[i]);
          assert records[..] == now[i := records[i]];
        }
      }
      assert records[..] == Aged(rs, maxAge, ts);
    }
  }

  function ReadingSteps(entries: seq<Entry>, ts: nat): seq<Step> {
    seq(|entries|, i requires 0 <= i < |entries| => Touch(entries[i].key, Reading(entries[i].rx, entries[i].tx), ts))
  }
}
