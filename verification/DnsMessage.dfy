/**
 * The DNS packet decoder: header, first question and answer records
 * (sections 4.1.1 to 4.1.3 of RFC 1035).
 */
module DnsMessage {
  import opened Wrappers
  import opened Bytes
  import opened DnsName
  import opened Chains
  import opened Layout

  const HEADER: nat := 12

  datatype Question = Question(name: seq<Label>, qtype: nat)

  datatype Record = Record(owner: seq<Label>, rtype: nat, rclass: nat, ttl: nat, rdata: seq<Byte>)

  datatype Event = Event(queryId: nat, rcode: nat, nxdomain: bool, question: Option<Question>, answers: seq<Record>)

  // ---------------------------------------------------------------------
  // Decoding
  // ---------------------------------------------------------------------

  /** The record at `off` and the offset after it. */
  function ReadRecord(data: seq<Byte>, off: nat): (r: Option<(Record, nat)>)
  {
    match Decode(data, off, MAX_HOPS)
    case Fail => None
    case Ok(owner, mid) =>
      if mid + 10 > |data| then None
      else
        var end := mid + 10 + U16(data, mid + 8);
        if end > |data| then None
        else Some((Record(owner, U16(data, mid), U16(data, mid + 2), U32(data, mid + 4), data[mid + 10..end]), end))
  }

  function RecordReader(data: seq<Byte>): Reader<Record> {
    (off: nat) => ReadRecord(data, off)
  }

  function IsResponse(payload: seq<Byte>): bool
    requires |payload| >= HEADER
  {
    U16(payload, 2) >= 0x8000
  }

  /** The whole packet; nothing when the header or the announced question does not fit. */
  function Packet(payload: seq<Byte>): Option<Event> {
    if |payload| < HEADER then None
    else
      var rcode := U16(payload, 2) % 16;
      if U16(payload, 4) == 0 then
        Some(Event(U16(payload, 0), rcode, rcode == 3, None, Answers(payload, HEADER)))
      else
        match Decode(payload, HEADER, MAX_HOPS)
        case Fail => None
        case Ok(name, mid) =>
          if mid + 2 > |payload| then None
          else
            Some(Event(U16(payload, 0), rcode, rcode == 3, Some(Question(name, U16(payload, mid))),
                       Answers(payload, mid + 4)))
  }

  function Answers(payload: seq<Byte>, off: nat): seq<Record>
    requires |payload| >= HEADER
  {
    if IsResponse(payload) then ReadUpTo(RecordReader(payload), off, U16(payload, 6)) else []
  }

  /** The body of the answer loop: one record, or nothing when a field does not fit. */
  method ParseRecord(payload: seq<Byte>, offset: nat) returns (r: Option<(Record, nat)>)
    ensures r == ReadRecord(payload, offset)
  {
    var name := ParseName(payload, offset);
    if name.Fail? || name.next + 10 > |payload| {
      return None;
    }
    var start := name.next + 10;
    var rdlen := U16(payload, name.next + 8);
    if start + rdlen > |payload| {
      return None;
    }
    r := Some((Record(name.labels, U16(payload, name.next), U16(payload, name.next + 2),
                      U32(payload, name.next + 4), payload[start..start + rdlen]),
               start + rdlen));
  }

  /** The answer loop. */
  method ParseAnswers(payload: seq<Byte>, start: nat, answerRRs: nat) returns (answers: seq<Record>)
    ensures answers == ReadUpTo(RecordReader(payload), start, answerRRs)
  {
    var offset: nat := start;
    answers := [];
    var i := 0;
    while i < answerRRs && offset < |payload|
      invariant 0 <= i <= answerRRs
      invariant ReadUpTo(RecordReader(payload), start, answerRRs) ==
                answers + ReadUpTo(RecordReader(payload), offset, answerRRs - i)
    {
      var record := ParseRecord(payload, offset);
      if record.None? {
        break;
      }
      ReadStep(RecordReader(payload), answers, offset, answerRRs - i);
      answers := answers + [record.value.0];
      offset := record.value.1;
      i := i + 1;
    }
    assert ReadUpTo(RecordReader(payload), offset, answerRRs - i) == [];
  }

  method ParsePacket(payload: seq<Byte>) returns (r: Option<Event>)
    ensures r == Packet(payload)
  {
    if |payload| < HEADER {
      return None;
    }
    var rcode := U16(payload, 2) % 16;
    var questions, answerRRs := U16(payload, 4), U16(payload, 6);
    var offset: nat := HEADER;
    var question := None;
    if questions > 0 {
      var name := ParseName(payload, offset);
      if name.Fail? || name.next + 2 > |payload| {
        return None;
      }
      question := Some(Question(name.labels, U16(payload, name.next)));
      offset := name.next + 4;
    }
    var answers: seq<Record> := [];
    if IsResponse(payload) && answerRRs > 0 {
      answers := ParseAnswers(payload, offset, answerRRs);
    }
    r := Some(Event(U16(payload, 0), rcode, rcode == 3, question, answers));
  }

  // ---------------------------------------------------------------------
  // The answer list is the longest chain of records
  // ---------------------------------------------------------------------

  /** The fixed fields and the data of `rec` stand at `mid` and end at `next`. */
  predicate FieldsAt(data: seq<Byte>, mid: nat, rec: Record, next: nat) {
    && mid + 10 <= next == mid + 10 + |rec.rdata| <= |data|
    && U16(data, mid) == rec.rtype
    && U16(data, mid + 2) == rec.rclass
    && U32(data, mid + 4) == rec.ttl
    && U16(data, mid + 8) == |rec.rdata|
    && data[mid + 10..next] == rec.rdata
  }

  /** A record with a derivable owner name stands at `off` and ends at `next`. */
  ghost predicate RecordAt(data: seq<Byte>, off: nat, rec: Record, next: nat) {
    exists mid: nat :: Derivable(data, off, MAX_HOPS, rec.owner, mid) && FieldsAt(data, mid, rec, next)
  }

  /** `recs` stand one right after another, at the offsets `offs`. */
  ghost predicate RecordsAt(data: seq<Byte>, offs: seq<nat>, recs: seq<Record>) {
    && |offs| == |recs| + 1
    && forall i | 0 <= i < |recs| :: RecordAt(data, offs[i], recs[i], offs[i + 1])
  }

  lemma ReadRecordIffRecordAt(data: seq<Byte>, off: nat, rec: Record, next: nat)
    ensures ReadRecord(data, off) == Some((rec, next)) <==> RecordAt(data, off, rec, next)
  {
    var r := Decode(data, off, MAX_HOPS);
    if r.Ok? {
      DecodesIffDerivable(data, off, MAX_HOPS, r.labels, r.next);
    }
    if RecordAt(data, off, rec, next) {
      var mid: nat :| Derivable(data, off, MAX_HOPS, rec.owner, mid) && FieldsAt(data, mid, rec, next);
      DecodesIffDerivable(data, off, MAX_HOPS, rec.owner, mid);
    }
  }

  lemma ReadRecordFrom(data: seq<Byte>, off: nat, mid: nat, rec: Record, next: nat)
    requires Decode(data, off, MAX_HOPS) == Ok(rec.owner, mid) && FieldsAt(data, mid, rec, next)
    ensures RecordReader(data)(off) == Some((rec, next))
  {
  }

  lemma RecordsAreChain(data: seq<Byte>, offs: seq<nat>, recs: seq<Record>)
    ensures RecordsAt(data, offs, recs) <==> Chain(RecordReader(data), offs, recs)
  {
    if |offs| == |recs| + 1 {
      forall i | 0 <= i < |recs|
        ensures RecordAt(data, offs[i], recs[i], offs[i + 1]) <==>
                RecordReader(data)(offs[i]) == Some((recs[i], offs[i + 1]))
      {
        ReadRecordIffRecordAt(data, offs[i], recs[i], offs[i + 1]);
      }
    }
  }

  /**
   * The answers are the longest list of records standing one right after
   * another from `off`, within the announced count: no record follows them
   * unless the count is reached, and every such list is a prefix of them.
   */
  lemma AnswersAreTheLongestList(data: seq<Byte>, off: nat, n: nat) returns (offs: seq<nat>)
    ensures var answers := ReadUpTo(RecordReader(data), off, n);
            && RecordsAt(data, offs, answers) && offs[0] == off && |answers| <= n
            && (|answers| < n ==> forall rec, next :: !RecordAt(data, offs[|answers|], rec, next))
    ensures forall others, recs :: RecordsAt(data, others, recs) && others[0] == off && |recs| <= n ==>
              recs <= ReadUpTo(RecordReader(data), off, n)
  {
    var read := RecordReader(data);
    offs := ReadIsMaximal(read, off, n);
    var answers := ReadUpTo(read, off, n);
    RecordsAreChain(data, offs, answers);
    if |answers| < n {
      forall rec, next
        ensures !RecordAt(data, offs[|answers|], rec, next)
      {
        ReadRecordIffRecordAt(data, offs[|answers|], rec, next);
      }
    }
    forall others, recs | RecordsAt(data, others, recs) && others[0] == off && |recs| <= n
      ensures recs <= answers
    {
      RecordsAreChain(data, others, recs);
      ChainIsPrefix(read, others, recs, n);
    }
  }

  /** `answers` stand one right after another from `start`, and no record follows unless `n` are there. */
  ghost predicate AnswersFrom(payload: seq<Byte>, start: nat, n: nat, answers: seq<Record>) {
    exists offs :: RecordsAt(payload, offs, answers) && offs[0] == start && |answers| <= n && Ends(payload, offs, n)
  }

  ghost predicate Ends(payload: seq<Byte>, offs: seq<nat>, n: nat) {
    0 < |offs| <= n ==> NoRecordAt(payload, offs[|offs| - 1])
  }

  ghost predicate NoRecordAt(payload: seq<Byte>, off: nat) {
    forall rec, next :: !RecordAt(payload, off, rec, next)
  }

  lemma AnswersFromIff(data: seq<Byte>, start: nat, n: nat, answers: seq<Record>)
    ensures AnswersFrom(data, start, n, answers) <==> answers == ReadUpTo(RecordReader(data), start, n)
  {
    var offs := AnswersAreTheLongestList(data, start, n);
    assert Ends(data, offs, n);
    if AnswersFrom(data, start, n, answers) {
      var others :| RecordsAt(data, others, answers) && others[0] == start && |answers| <= n && Ends(data, others, n);
      RecordsAreChain(data, others, answers);
      if |answers| < n && ReadRecord(data, others[|answers|]).Some? {
        var got := ReadRecord(data, others[|answers|]).value;
        ReadRecordIffRecordAt(data, others[|answers|], got.0, got.1);
      }
      MaximalIsRead(RecordReader(data), others, answers, n);
    }
  }

  /** The question the header announces, if any, and the offset after it. */
  ghost predicate QuestionPart(payload: seq<Byte>, q: Option<Question>, start: nat)
    requires |payload| >= HEADER
  {
    match q
    case None => payload[4] == 0 && payload[5] == 0 && start == HEADER
    case Some(Question(name, qtype)) =>
      && (payload[4] != 0 || payload[5] != 0)
      && start >= 4 && start - 2 <= |payload|
      && Derivable(payload, HEADER, MAX_HOPS, name, start - 4)
      && U16(payload, start - 4) == qtype
  }

  /** The event tells what stands in the payload, its answers beginning at `start`. */
  ghost predicate Describes(payload: seq<Byte>, e: Event, start: nat) {
    && |payload| >= HEADER
    && e.queryId == payload[0] as int * 256 + payload[1]
    && e.rcode == payload[3] % 16 && (e.nxdomain <==> e.rcode == 3)
    && QuestionPart(payload, e.question, start)
    && if payload[2] < 128 then e.answers == [] else AnswersFrom(payload, start, U16(payload, 6), e.answers)
  }

  lemma QuestionPartIff(payload: seq<Byte>, q: Option<Question>, start: nat)
    requires |payload| >= HEADER
    ensures QuestionPart(payload, q, start) <==>
            if U16(payload, 4) == 0 then q.None? && start == HEADER
            else
              var name := Decode(payload, HEADER, MAX_HOPS);
              && name.Ok? && name.next + 2 <= |payload|
              && q == Some(Question(name.labels, U16(payload, name.next))) && start == name.next + 4
  {
    if q.Some? && start >= 4 {
      DecodesIffDerivable(payload, HEADER, MAX_HOPS, q.value.name, start - 4);
    }
  }

  lemma FlagsOctets(hi: Byte, lo: Byte)
    ensures hi as int * 256 + lo >= 0x8000 <==> hi >= 128
    ensures (hi as int * 256 + lo) % 16 == lo % 16
  {
  }

  lemma AnswersPartIff(payload: seq<Byte>, start: nat, answers: seq<Record>)
    requires |payload| >= HEADER
    ensures (if payload[2] < 128 then answers == [] else AnswersFrom(payload, start, U16(payload, 6), answers)) <==>
            answers == Answers(payload, start)
  {
    FlagsOctets(payload[2], payload[3]);
    AnswersFromIff(payload, start, U16(payload, 6), answers);
  }

  lemma PacketDescribes(payload: seq<Byte>, e: Event) returns (start: nat)
    requires Packet(payload) == Some(e)
    ensures Describes(payload, e, start)
  {
    FlagsOctets(payload[2], payload[3]);
    start := if U16(payload, 4) == 0 then HEADER else Decode(payload, HEADER, MAX_HOPS).next + 4;
    QuestionPartIff(payload, e.question, start);
    AnswersPartIff(payload, start, e.answers);
  }

  lemma PacketWithout(payload: seq<Byte>)
    requires |payload| >= HEADER && U16(payload, 4) == 0
    ensures var rcode := U16(payload, 2) % 16;
            Packet(payload) == Some(Event(U16(payload, 0), rcode, rcode == 3, None, Answers(payload, HEADER)))
  {
  }

  lemma DescribedIsPacket(payload: seq<Byte>, e: Event, start: nat)
    requires Describes(payload, e, start)
    ensures Packet(payload) == Some(e)
  {
    assert e.rcode == U16(payload, 2) % 16 by {
      FlagsOctets(payload[2], payload[3]);
    }
    assert e.answers == Answers(payload, start) by {
      AnswersPartIff(payload, start, e.answers);
    }
    QuestionPartIff(payload, e.question, start);
    if U16(payload, 4) == 0 {
      PacketWithout(payload);
    } else {
      PacketWithQuestion(payload, e.question.value.name, start - 4);
    }
  }

  /**
   * The packet parser gives exactly the event that describes the payload: the
   * header's identifier and code, the announced question, and in a response the
   * longest list of records after it, however many the header announces and
   * wherever the payload is cut. It gives none exactly when none does.
   */
  lemma PacketIff(payload: seq<Byte>, e: Event)
    ensures Packet(payload) == Some(e) <==> exists start :: Describes(payload, e, start)
  {
    if Packet(payload) == Some(e) {
      var start := PacketDescribes(payload, e);
    }
    if exists start :: Describes(payload, e, start) {
      var start :| Describes(payload, e, start);
      DescribedIsPacket(payload, e, start);
    }
  }

  /** Whatever the counts in the header claim, the answers fit in the octets received. */
  lemma AnswersFit(payload: seq<Byte>)
    requires Packet(payload).Some? && Packet(payload).value.answers != []
    ensures HEADER + 11 * |Packet(payload).value.answers| <= |payload|
    ensures Packet(payload).value.question.Some? ==>
              HEADER + 5 + 11 * |Packet(payload).value.answers| <= |payload|
  {
    var n := U16(payload, 6);
    var off: nat := if U16(payload, 4) == 0 then HEADER else Decode(payload, HEADER, MAX_HOPS).next + 4;
    var offs := ReadIsMaximal(RecordReader(payload), off, n);
    ChainExtent(RecordReader(payload), offs, Packet(payload).value.answers, 11, |payload|);
  }

  // ---------------------------------------------------------------------
  // Encoding, and the decoder as its inverse
  // ---------------------------------------------------------------------

  /** A pointer and the labels it stands for. */
  datatype Link = Link(target: nat, tail: seq<Label>)

  /** An owner name: its own labels, then the root octet or a pointer. */
  datatype Owner = Owner(own: seq<Label>, link: Option<Link>)

  datatype ResourceFields = Resource(owner: Owner, rtype: nat, rclass: nat, ttl: nat, rdata: seq<Byte>)

  /** A resource whose labels and fields fit their wire formats. */
  type Resource = r: ResourceFields | ValidOwner(r.owner) && ValidFields(r)
    witness Resource(Owner([], None), 0, 0, 0, [])

  datatype Message = Message(id: nat, flags: nat, name: seq<Label>, qtype: nat, qclass: nat, answers: seq<Resource>)

  predicate ValidOwner(o: Owner) {
    && (forall l | l in o.own :: 1 <= |l| <= 63)
    && (o.link.Some? ==> o.link.value.target < 0x4000)
  }

  predicate ValidFields(r: ResourceFields) {
    r.rtype < 0x1_0000 && r.rclass < 0x1_0000 && r.ttl < 0x1_0000_0000 && |r.rdata| < 0x1_0000
  }

  predicate ValidMessage(m: Message) {
    && m.id < 0x1_0000 && m.flags < 0x1_0000 && m.qtype < 0x1_0000 && m.qclass < 0x1_0000
    && |m.answers| < 0x1_0000
    && forall l | l in m.name :: 1 <= |l| <= 63
  }

  function EncodeOwner(o: Owner): seq<Byte>
    requires ValidOwner(o)
  {
    if o.link.None? then EncodeName(o.own) else EncodeLabels(o.own) + EncodePointer(o.link.value.target)
  }

  function EncodeFields(r: Resource): seq<Byte> {
    PutU16(r.rtype) + (PutU16(r.rclass) + (PutU32(r.ttl) + (PutU16(|r.rdata|) + r.rdata)))
  }

  function EncodeResource(r: Resource): seq<Byte> {
    EncodeOwner(r.owner) + EncodeFields(r)
  }

  function EncodeHeader(m: Message): (s: seq<Byte>)
    requires ValidMessage(m)
    ensures |s| == HEADER
    ensures U16(s, 0) == m.id && U16(s, 2) == m.flags && U16(s, 4) == 1 && U16(s, 6) == |m.answers|
  {
    PutU16(m.id) + PutU16(m.flags) + PutU16(1) + PutU16(|m.answers|) + PutU16(0) + PutU16(0)
  }

  function EncodeMessage(m: Message): seq<Byte>
    requires ValidMessage(m)
  {
    EncodeHeader(m) +
    (EncodeName(m.name) + ((PutU16(m.qtype) + PutU16(m.qclass)) + EncodeAll(EncodeResource, m.answers)))
  }

  /** What a resource means once its owner's pointer is resolved. */
  function Resolve(r: Resource): Record {
    Record(if r.owner.link.None? then r.owner.own else r.owner.own + r.owner.link.value.tail,
           r.rtype, r.rclass, r.ttl, r.rdata)
  }

  /** The owner's pointer leads, in `data`, to the labels it stands for. */
  ghost predicate LinkHolds(data: seq<Byte>, o: Owner) {
    o.link.Some? ==> Names(data, o.link.value.target, MAX_HOPS - 1, o.link.value.tail)
  }

  lemma OwnerDecodes(data: seq<Byte>, off: nat, r: Resource)
    requires LinkHolds(data, r.owner) && At(data, off, EncodeOwner(r.owner))
    ensures Decode(data, off, MAX_HOPS) == Ok(Resolve(r).owner, off + |EncodeOwner(r.owner)|)
  {
    var o := r.owner;
    if o.link.None? {
      DecodePlain(data, off, o.own, MAX_HOPS);
    } else {
      DecodeLinked(data, off, o.own, o.link.value.target, o.link.value.tail);
    }
  }

  lemma FieldsDecode(data: seq<Byte>, mid: nat, r: Resource)
    requires At(data, mid, EncodeFields(r))
    ensures |EncodeFields(r)| == 10 + |r.rdata| && FieldsAt(data, mid, Resolve(r), mid + 10 + |r.rdata|)
  {
    AtConcat(data, mid, PutU16(r.rtype), PutU16(r.rclass) + (PutU32(r.ttl) + (PutU16(|r.rdata|) + r.rdata)));
    AtConcat(data, mid + 2, PutU16(r.rclass), PutU32(r.ttl) + (PutU16(|r.rdata|) + r.rdata));
    AtConcat(data, mid + 4, PutU32(r.ttl), PutU16(|r.rdata|) + r.rdata);
    AtConcat(data, mid + 8, PutU16(|r.rdata|), r.rdata);
    U16At(data, mid, r.rtype);
    U16At(data, mid + 2, r.rclass);
    U32At(data, mid + 4, r.ttl);
    U16At(data, mid + 8, |r.rdata|);
    AtSlice(data, mid + 10, r.rdata);
  }

  lemma SplitResource(data: seq<Byte>, off: nat, r: Resource)
    requires At(data, off, EncodeResource(r))
    ensures At(data, off, EncodeOwner(r.owner)) && At(data, off + |EncodeOwner(r.owner)|, EncodeFields(r))
  {
    AtConcat(data, off, EncodeOwner(r.owner), EncodeFields(r));
  }

  lemma ResourceDecodes(data: seq<Byte>, off: nat, r: Resource)
    requires LinkHolds(data, r.owner) && At(data, off, EncodeResource(r))
    ensures RecordReader(data)(off) == Some((Resolve(r), off + |EncodeResource(r)|))
  {
    var mid, end := off + |EncodeOwner(r.owner)|, off + |EncodeResource(r)|;
    SplitResource(data, off, r);
    assert Decode(data, off, MAX_HOPS) == Ok(Resolve(r).owner, mid) by {
      OwnerDecodes(data, off, r);
    }
    assert FieldsAt(data, mid, Resolve(r), end) by {
      FieldsDecode(data, mid, r);
    }
    ReadRecordFrom(data, off, mid, Resolve(r), end);
  }

  ghost function Linked(data: seq<Byte>): Resource -> bool {
    (r: Resource) => LinkHolds(data, r.owner)
  }

  lemma ReaderInvertsResource(data: seq<Byte>, r: Resource, o: nat)
    ensures InvertsAt(RecordReader(data), EncodeResource, Resolve, Linked(data), data, r, o)
  {
    var read, enc, mean, good := RecordReader(data), EncodeResource, Resolve, Linked(data);
    assert enc(r) == EncodeResource(r) && mean(r) == Resolve(r) && good(r) == LinkHolds(data, r.owner);
    if good(r) && At(data, o, enc(r)) {
      ResourceDecodes(data, o, r);
    }
  }

  lemma ReaderInvertsResources(data: seq<Byte>)
    ensures Inverts(RecordReader(data), EncodeResource, Resolve, Linked(data), data)
  {
    forall r: Resource, o: nat
      ensures InvertsAt(RecordReader(data), EncodeResource, Resolve, Linked(data), data, r, o)
    {
      ReaderInvertsResource(data, r, o);
    }
  }

  lemma LayoutOf(header: seq<Byte>, name: seq<Byte>, qtype: nat, qclass: seq<Byte>, tail: seq<Byte>)
    requires qtype < 0x1_0000
    ensures var data, mid := header + (name + ((PutU16(qtype) + qclass) + tail)), |header| + |name|;
            && At(data, |header|, name) && U16(data, mid) == qtype && At(data, mid + 2 + |qclass|, tail)
            && (forall i: nat | i + 2 <= |header| :: U16(data, i) == U16(header, i))
  {
    var data, mid := header + (name + ((PutU16(qtype) + qclass) + tail)), |header| + |name|;
    AtConcat(data, 0, header, name + ((PutU16(qtype) + qclass) + tail));
    AtConcat(data, |header|, name, (PutU16(qtype) + qclass) + tail);
    AtConcat(data, mid, PutU16(qtype) + qclass, tail);
    AtConcat(data, mid, PutU16(qtype), qclass);
    U16At(data, mid, qtype);
  }

  /** Where the parts of an encoded message stand. */
  lemma MessageLayout(m: Message)
    requires ValidMessage(m)
    ensures var data, mid := EncodeMessage(m), HEADER + |EncodeName(m.name)|;
            && mid + 4 <= |data|
            && U16(data, 0) == m.id && U16(data, 2) == m.flags && U16(data, 4) == 1 && U16(data, 6) == |m.answers|
            && At(data, HEADER, EncodeName(m.name))
            && U16(data, mid) == m.qtype
            && At(data, mid + 4, EncodeAll(EncodeResource, m.answers))
  {
    var data, header := EncodeMessage(m), EncodeHeader(m);
    LayoutOf(header, EncodeName(m.name), m.qtype, PutU16(m.qclass), EncodeAll(EncodeResource, m.answers));
    assert forall i: nat | i + 2 <= HEADER :: U16(data, i) == U16(header, i);
  }

  lemma PacketWithQuestion(data: seq<Byte>, name: seq<Label>, mid: nat)
    requires |data| >= HEADER && U16(data, 4) > 0
    requires Decode(data, HEADER, MAX_HOPS) == Ok(name, mid) && mid + 2 <= |data|
    ensures var rcode := U16(data, 2) % 16;
            Packet(data) == Some(Event(U16(data, 0), rcode, rcode == 3, Some(Question(name, U16(data, mid))),
                                       Answers(data, mid + 4)))
  {
  }

  /**
   * The decoder inverts the encoder: a response gives back its header fields,
   * its question and every answer with its owner name resolved, wherever in
   * the message the owners' pointers lead; a query gives no answers.
   */
  lemma MessageRoundTrip(m: Message)
    requires ValidMessage(m)
    requires forall i | 0 <= i < |m.answers| :: LinkHolds(EncodeMessage(m), m.answers[i].owner)
    ensures Packet(EncodeMessage(m)) ==
            Some(Event(m.id, m.flags % 16, m.flags % 16 == 3, Some(Question(m.name, m.qtype)),
                       if m.flags >= 0x8000 then MapAll(Resolve, m.answers) else []))
  {
    var data, mid := EncodeMessage(m), HEADER + |EncodeName(m.name)|;
    MessageLayout(m);
    DecodePlain(data, HEADER, m.name, MAX_HOPS);
    ReaderInvertsResources(data);
    ReadEncoded(RecordReader(data), EncodeResource, Resolve, Linked(data), data, mid + 4, m.answers);
    PacketWithQuestion(data, m.name, mid);
  }

  lemma {:induction false} EncodeLabelsSplit(a: seq<Label>, b: seq<Label>)
    requires ValidLabels(a + b)
    ensures ValidLabels(a) && ValidLabels(b)
    ensures EncodeLabels(a + b) == EncodeLabels(a) + EncodeLabels(b)
    decreases |a|
  {
    assert forall l | l in a :: l in a + b;
    assert forall l | l in b :: l in a + b;
    if a == [] {
      assert a + b == b;
    } else {
      assert (a + b)[1..] == a[1..] + b;
      EncodeLabelsSplit(a[1..], b);
    }
  }

  /** Pointing at a label of the question stands for the question's name from that label on. */
  lemma QuestionSuffixHolds(m: Message, k: nat, own: seq<Label>)
    requires ValidMessage(m) && k <= |m.name| && ValidLabels(m.name[..k])
    ensures LinkHolds(EncodeMessage(m),
                      Owner(own, Some(Link(HEADER + |EncodeLabels(m.name[..k])|, m.name[k..]))))
  {
    MessageLayout(m);
    SuffixDecodes(EncodeMessage(m), HEADER, m.name, k);
  }

  lemma SuffixDecodes(data: seq<Byte>, off: nat, name: seq<Label>, k: nat)
    requires k <= |name| && ValidLabels(name) && ValidLabels(name[..k]) && At(data, off, EncodeName(name))
    ensures Names(data, off + |EncodeLabels(name[..k])|, MAX_HOPS - 1, name[k..])
  {
    var a, b := name[..k], name[k..];
    var target := off + |EncodeLabels(a)|;
    assert a + b == name;
    EncodeLabelsSplit(a, b);
    assert EncodeName(name) == EncodeLabels(a) + EncodeName(b);
    AtConcat(data, off, EncodeLabels(a), EncodeName(b));
    DecodePlain(data, target, b, MAX_HOPS - 1);
    DecodedIsNamed(data, target, MAX_HOPS - 1);
  }
}
