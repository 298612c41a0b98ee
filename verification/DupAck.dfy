/**
 * The duplicate-acknowledgement check: one ring of 4096 sequence numbers,
 * shared by all flows and advanced by every pure acknowledgement.
 */
module DupAck {
  import opened Wrappers
  import opened FlowTable

  const RING: nat := 4096

  /** A pure acknowledgement: its flow, and the number the probe passes for it. */
  datatype Ack = Ack(key: Key, seqNum: nat)

  /** What the check reports after these acknowledgements: the same nonzero number came 4096 of them ago. */
  predicate Flagged(acks: seq<Ack>, a: Ack) {
    a.seqNum != 0 && |acks| >= RING && acks[|acks| - RING].seqNum == a.seqNum
  }

  class AckRing {
    const last: array<nat>
    var index: nat
    ghost var acks: seq<Ack>

    /** The ring holds the latest 4096 numbers, each at its place, over zeros. */
    ghost predicate Valid()
      reads this, last
    {
      && last.Length == RING && index == |acks|
      && (forall k | 0 <= k < |acks| && |acks| <= k + RING :: last[k % RING] == acks[k].seqNum)
      && (forall j | |acks| <= j < RING :: last[j] == 0)
    }

    constructor ()
      ensures Valid() && acks == [] && fresh(last)
    {
      last := new nat[RING](_ => 0);
      index := 0;
      acks := [];
    }

    method Check(a: Ack) returns (dup: bool)
      requires Valid()
      modifies this, last
      ensures Valid() && acks == old(acks) + [a] && dup == Flagged(old(acks), a)
    {
      var i := index % RING;
      if index >= RING {
        SamePlace(index);
        assert last[(index - RING) % RING] == acks[index - RING].seqNum;
      } else {
        assert i == index && last[i] == 0;
      }
      dup := last[i] == a.seqNum && a.seqNum != 0;
      PlacesDiffer(index);
      last[i] := a.seqNum;
      index := index + 1;
      acks := acks + [a];
    }
  }

  lemma SamePlace(n: nat)
    requires n >= RING
    ensures (n - RING) % RING == n % RING
  {
  }

  lemma PlacesDiffer(n: nat)
    ensures forall k: nat | k < n < k + RING :: k % RING != n % RING
  {
    forall k: nat | k < n < k + RING
      ensures k % RING != n % RING
    {
      TwoPlacesDiffer(k, n);
    }
  }

  lemma TwoPlacesDiffer(k: nat, n: nat)
    requires k < n < k + RING
    ensures k % RING != n % RING
  {
  }

  // ---------------------------------------------------------------------
  // Against what the check is documented to report
  // ---------------------------------------------------------------------

  /** The number of the flow's latest acknowledgement. */
  function Previous(acks: seq<Ack>, key: Key): Option<nat> {
    if acks == [] then None
    else if acks[|acks| - 1].key == key then Some(acks[|acks| - 1].seqNum)
    else Previous(acks[..|acks| - 1], key)
  }

  /** The report says whether the flow's previous acknowledgement had the same number. */
  predicate Right(acks: seq<Ack>, a: Ack) {
    Flagged(acks, a) <==> Previous(acks, a.key) == Some(a.seqNum)
  }

  lemma {:induction false} NoPrevious(acks: seq<Ack>, key: Key)
    requires forall i | 0 <= i < |acks| :: acks[i].key != key
    ensures Previous(acks, key) == None
    decreases |acks|
  {
    if acks != [] {
      NoPrevious(acks[..|acks| - 1], key);
    }
  }

  /** The key is within the widths of its fields. */
  predicate Fits(k: Key) {
    && k.srcIp < U32 && k.dstIp < U32 && k.srcPort < 0x1_0000 && k.dstPort < 0x1_0000
    && k.protocol < 256 && k.ipVersion < 256
  }

  predicate AckFits(a: Ack) {
    Fits(a.key) && a.seqNum < U32
  }

  function Below(n: nat): (r: set<nat>)
    ensures forall x :: x in r <==> 0 <= x < n
    ensures |r| == n
  {
    if n == 0 then {} else Below(n - 1) + {n - 1}
  }

  function Sources(acks: seq<Ack>): (r: set<nat>)
    ensures forall i | 0 <= i < |acks| :: acks[i].key.srcIp in r
    ensures |r| <= |acks|
  {
    if acks == [] then {} else Sources(acks[..|acks| - 1]) + {acks[|acks| - 1].key.srcIp}
  }

  lemma SubsetSize(a: set<nat>, b: set<nat>)
    requires a <= b
    ensures |a| <= |b|
  {
    assert b == a + (b - a);
  }

  /** Fewer than 2^32 acknowledgements leave a source address unused. */
  lemma UnusedAddress(acks: seq<Ack>) returns (ip: nat)
    requires |acks| < U32
    ensures ip < U32 && forall i | 0 <= i < |acks| :: acks[i].key.srcIp != ip
  {
    var all, used := Below(U32), Sources(acks);
    if all <= used {
      SubsetSize(all, used);
    }
    ip :| ip in all && ip !in used;
  }

  /** After any acknowledgement the next can be reported wrongly: a repetition missed, or a new flow flagged. */
  lemma SomeReportWrong(acks: seq<Ack>) returns (a: Ack)
    requires acks != [] && |acks| < U32 && forall i | 0 <= i < |acks| :: AckFits(acks[i])
    ensures AckFits(a) && !Right(acks, a)
  {
    var latest := acks[|acks| - 1];
    a := latest;
    if Flagged(acks, latest) {
      var ip := UnusedAddress(acks);
      a := Ack(latest.key.(srcIp := ip), latest.seqNum);
      NoPrevious(acks, a.key);
    }
  }

  /**
   * Over any acknowledgements within the widths of their fields, and fewer than
   * 2^32 of them (the index of the ring overflows before), the check reports
   * every possible next one rightly exactly when there was none before.
   */
  lemma RightIffFirst(acks: seq<Ack>)
    requires |acks| < U32 && forall i | 0 <= i < |acks| :: AckFits(acks[i])
    ensures (forall a | AckFits(a) :: Right(acks, a)) <==> acks == []
  {
    if acks != [] {
      var a := SomeReportWrong(acks);
      assert AckFits(a) && !Right(acks, a);
    }
  }

  /** The second of two equal acknowledgements in a row is not reported, in the first 4096. */
  lemma RepetitionMissed(acks: seq<Ack>, a: Ack)
    requires |acks| + 1 < RING
    ensures Previous(acks + [a], a.key) == Some(a.seqNum) && !Flagged(acks + [a], a)
  {
  }

  /** A nonzero number is reported again after exactly 4096 acknowledgements, on whatever flow. */
  lemma FlaggedAfter4096(acks: seq<Ack>, first: Ack, a: Ack)
    requires |acks| >= 4096 && acks[|acks| - 4096] == first
    ensures Flagged(acks, a) <==> a.seqNum == first.seqNum != 0
  {
  }
}
