/**
 * The flow tracker's slot table. A lookup probes the slots in order for the
 * key, then for a free slot; ageing frees slots without clearing them.
 */
module FlowTable {
  import opened Modular

  const U32: nat := 0x1_0000_0000

  datatype Key = Key(srcIp: nat, dstIp: nat, srcPort: nat, dstPort: nat, protocol: nat, ipVersion: nat)

  /** A slot. A free slot keeps whatever its last flow left in it. */
  datatype Slot = Slot(key: Key, active: bool, bytes: nat, packets: nat, lastSeen: nat,
                       prevRx: nat, prevTx: nat, seqExpected: nat, retransmits: nat)

  /** What a flow is told: a packet's size, a reading of its queues, or a TCP segment. */
  datatype Input =
    | Packet(size: nat)
    | Reading(rx: nat, tx: nat)
    | Segment(seqNum: nat, payload: nat, synOrFin: bool)

  // ---------------------------------------------------------------------
  // One slot
  // ---------------------------------------------------------------------

  function Delta(now: nat, prev: nat): nat {
    if now >= prev then now - prev else 0
  }

  /** The bytes an input adds to a flow. */
  function Gain(r: Slot, x: Input): nat {
    match x
    case Packet(size) => size
    case Reading(rx, tx) => (Delta(rx, r.prevRx) + Delta(tx, r.prevTx)) % U64
    case Segment(_, _, _) => 0
  }

  /** A data segment that starts before the next sequence number expected. */
  predicate IsRetransmit(r: Slot, x: Input) {
    x.Segment? && !x.synOrFin && x.payload > 0 && r.seqExpected != 0 && x.seqNum < r.seqExpected
  }

  function Absorb(r: Slot, x: Input, ts: nat): Slot {
    match x
    case Packet(size) =>
      r.(bytes := (r.bytes + size) % U64, packets := (r.packets + 1) % U64, lastSeen := ts)
    case Reading(rx, tx) =>
      var gain := Gain(r, x);
      r.(prevRx := rx, prevTx := tx, bytes := (r.bytes + gain) % U64,
         packets := (r.packets + if gain > 0 then 1 else 0) % U64, lastSeen := ts)
    case Segment(seqNum, payload, synOrFin) =>
      if synOrFin then r.(seqExpected := (seqNum + 1) % U32)
      else if payload == 0 then r
      else if IsRetransmit(r, x) then r.(retransmits := (r.retransmits + 1) % U32)
      else r.(seqExpected := (seqNum + payload) % U32)
  }

  // ---------------------------------------------------------------------
  // Probing
  // ---------------------------------------------------------------------

  /** The first active slot from `i` on that holds `key`, or the table's size. */
  function FindKey(rs: seq<Slot>, key: Key, i: nat): (r: nat)
    requires i <= |rs|
    ensures i <= r <= |rs|
    ensures r < |rs| ==> rs[r].active && rs[r].key == key
    ensures forall j | i <= j < r :: !(rs[j].active && rs[j].key == key)
    decreases |rs| - i
  {
    if i == |rs| || (rs[i].active && rs[i].key == key) then i else FindKey(rs, key, i + 1)
  }

  /** The first free slot from `i` on, or the table's size. */
  function FindFree(rs: seq<Slot>, i: nat): (r: nat)
    requires i <= |rs|
    ensures i <= r <= |rs|
    ensures r < |rs| ==> !rs[r].active
    ensures forall j | i <= j < r :: rs[j].active
    decreases |rs| - i
  {
    if i == |rs| || !rs[i].active then i else FindFree(rs, i + 1)
  }

  /** The slot a lookup returns, or the table's size when there is none. */
  function Probe(rs: seq<Slot>, key: Key): (r: nat)
    ensures r <= |rs|
  {
    var i := FindKey(rs, key, 0);
    if i < |rs| then i else FindFree(rs, 0)
  }

  // ---------------------------------------------------------------------
  // The table as a bounded map
  // ---------------------------------------------------------------------

  ghost predicate KeysDistinct(rs: seq<Slot>) {
    forall i, j | 0 <= i < j < |rs| && rs[i].active && rs[j].active :: rs[i].key != rs[j].key
  }

  function NumActive(rs: seq<Slot>): (n: nat)
    ensures n <= |rs|
  {
    if rs == [] then 0 else (if rs[|rs| - 1].active then 1 else 0) + NumActive(rs[..|rs| - 1])
  }

  ghost predicate Has(rs: seq<Slot>, key: Key) {
    exists i | 0 <= i < |rs| :: rs[i].active && rs[i].key == key
  }

  /** The active flows, by key. */
  ghost function Flows(rs: seq<Slot>): map<Key, Slot>
    requires KeysDistinct(rs)
  {
    map i | 0 <= i < |rs| && rs[i].active :: rs[i].key := rs[i]
  }

  ghost predicate Full(rs: seq<Slot>) {
    forall i | 0 <= i < |rs| :: rs[i].active
  }

  lemma {:induction false} NumActiveUpdate(rs: seq<Slot>, i: nat, r: Slot)
    requires i < |rs|
    ensures NumActive(rs[i := r]) + (if rs[i].active then 1 else 0) == NumActive(rs) + (if r.active then 1 else 0)
    decreases |rs|
  {
    var n := |rs| - 1;
    if i < n {
      NumActiveUpdate(rs[..n], i, r);
      assert rs[i := r][..n] == rs[..n][i := r];
    } else {
      assert rs[i := r][..n] == rs[..n];
    }
  }

  /** All slots are active exactly when as many are counted. */
  lemma {:induction false} FullIffCount(rs: seq<Slot>)
    ensures Full(rs) <==> NumActive(rs) == |rs|
    decreases |rs|
  {
    if rs != [] {
      var n := |rs| - 1;
      FullIffCount(rs[..n]);
      if NumActive(rs) == |rs| {
        assert forall i | 0 <= i < n :: rs[..n][i] == rs[i];
      }
    }
  }

  /** A lookup fails exactly when the key is absent and every slot is active. */
  lemma ProbeFailsIff(rs: seq<Slot>, key: Key)
    ensures Probe(rs, key) == |rs| <==> !Has(rs, key) && Full(rs)
  {
    if Has(rs, key) {
      var i :| 0 <= i < |rs| && rs[i].active && rs[i].key == key;
      assert FindKey(rs, key, 0) <= i;
    }
  }

  lemma ProbeFindsKey(rs: seq<Slot>, key: Key)
    requires Has(rs, key)
    ensures Probe(rs, key) < |rs| && rs[Probe(rs, key)].active && rs[Probe(rs, key)].key == key
  {
    var i :| 0 <= i < |rs| && rs[i].active && rs[i].key == key;
    assert FindKey(rs, key, 0) <= i;
  }

  /** Writing an active slot whose key no other active slot holds updates the map at that key. */
  lemma UpdateRefinesMap(rs: seq<Slot>, i: nat, r: Slot)
    requires KeysDistinct(rs) && i < |rs| && r.active
    requires rs[i].active ==> rs[i].key == r.key
    requires forall j | 0 <= j < |rs| && j != i && rs[j].active :: rs[j].key != r.key
    ensures KeysDistinct(rs[i := r]) && Flows(rs[i := r]) == Flows(rs)[r.key := r]
  {
    var rs', m := rs[i := r], Flows(rs)[r.key := r];
    assert KeysDistinct(rs');
    forall k
      ensures k in Flows(rs') <==> k in m
      ensures k in m ==> Flows(rs')[k] == m[k]
    {
      FlowsAt(rs, k);
      FlowsAt(rs', k);
      assert rs'[i].active && rs'[i].key == r.key;
      assert forall j | 0 <= j < |rs| && j != i :: rs'[j] == rs[j];
    }
  }

  /** The map holds, at each key, the one active slot with that key. */
  lemma FlowsAt(rs: seq<Slot>, key: Key)
    requires KeysDistinct(rs)
    ensures key in Flows(rs) <==> Has(rs, key)
    ensures key in Flows(rs) ==> exists i | 0 <= i < |rs| :: rs[i].active && rs[i].key == key && Flows(rs)[key] == rs[i]
  {
  }

  /** Writing an active slot for `key` where its lookup leads updates the map at that key, and nothing else. */
  lemma StoreRefinesMap(rs: seq<Slot>, key: Key, r: Slot)
    requires KeysDistinct(rs) && Probe(rs, key) < |rs| && r.key == key && r.active
    ensures KeysDistinct(rs[Probe(rs, key) := r])
    ensures Flows(rs[Probe(rs, key) := r]) == Flows(rs)[key := r]
    ensures NumActive(rs[Probe(rs, key) := r]) == NumActive(rs) + (if rs[Probe(rs, key)].active then 0 else 1)
  {
    UpdateRefinesMap(rs, Probe(rs, key), r);
    NumActiveUpdate(rs, Probe(rs, key), r);
  }
}
