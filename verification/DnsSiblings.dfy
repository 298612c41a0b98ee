/**
 * The three other DNS question decoders of the repository: the legacy Go
 * record decoder, the protocol collector's, and the C probe's. None of them
 * follows pointers; each is a loop of its own over the same octets.
 */
module DnsSiblings {
  import opened Wrappers
  import opened Bytes
  import opened Layout
  import opened DnsName
  import opened DnsMessage

  /** Why a scan of plain labels ended. */
  datatype Stop = AtRoot | AtPointer | AtEnd | Overrun

  datatype Scan = Scan(labels: seq<Label>, offset: nat, stop: Stop)

  /** The plain labels from `off` up to the first octet that is not one that fits. */
  function ScanLabels(data: seq<Byte>, off: nat): (r: Scan)
    ensures off <= r.offset && (r.stop != AtEnd ==> r.offset < |data|)
    ensures r.stop == AtEnd ==> r.offset >= |data|
    decreases |data| - off
  {
    if off >= |data| then Scan([], off, AtEnd)
    else if data[off] == 0 then Scan([], off, AtRoot)
    else if IsPointer(data[off]) then Scan([], off, AtPointer)
    else if off + 1 + data[off] > |data| then Scan([], off, Overrun)
    else
      var rest := ScanLabels(data, off + 1 + data[off]);
      Scan([data[off + 1..off + 1 + data[off]]] + rest.labels, rest.offset, rest.stop)
  }

  /** `parts` collected so far, then the scan that is still to be made. */
  function Continue(parts: seq<Label>, s: Scan): Scan {
    Scan(parts + s.labels, s.offset, s.stop)
  }

  lemma ContinueLabel(data: seq<Byte>, parts: seq<Label>, off: nat)
    requires off < |data| && data[off] != 0 && !IsPointer(data[off]) && off + 1 + data[off] <= |data|
    ensures Continue(parts, ScanLabels(data, off)) ==
            Continue(parts + [data[off + 1..off + 1 + data[off]]], ScanLabels(data, off + 1 + data[off]))
  {
    var text, rest := data[off + 1..off + 1 + data[off]], ScanLabels(data, off + 1 + data[off]);
    assert parts + ([text] + rest.labels) == (parts + [text]) + rest.labels;
  }

  /** `whole` is what was collected in `parts` and the scan still to be made from `off`. */
  ghost predicate Ahead(payload: seq<Byte>, parts: seq<Label>, off: nat, whole: Scan) {
    whole == Continue(parts, ScanLabels(payload, off))
  }

  lemma AheadLabel(payload: seq<Byte>, parts: seq<Label>, off: nat, whole: Scan, text: Label)
    requires Ahead(payload, parts, off, whole)
    requires off < |payload| && payload[off] != 0 && !IsPointer(payload[off]) && off + 1 + payload[off] <= |payload|
    requires text == payload[off + 1..off + 1 + payload[off]]
    ensures Ahead(payload, parts + [text], off + 1 + payload[off], whole)
  {
    ContinueLabel(payload, parts, off);
  }

  lemma AheadStops(payload: seq<Byte>, parts: seq<Label>, off: nat, whole: Scan)
    requires Ahead(payload, parts, off, whole)
    requires off < |payload| && payload[off] != 0 && !IsPointer(payload[off]) ==> off + 1 + payload[off] > |payload|
    ensures whole == Scan(parts, off, ScanLabels(payload, off).stop)
  {
    assert parts + [] == parts;
  }

  // ---------------------------------------------------------------------
  // The legacy record decoder
  // ---------------------------------------------------------------------

  /** No record, a record, or the out-of-range slice that ends the goroutine. */
  datatype Legacy = NoRecord | Crash | LegacyRecord(name: seq<Byte>, qtype: nat, rcode: nat)

  function LegacyEnd(s: Scan): nat {
    match s.stop
    case AtRoot => s.offset + 1
    case AtPointer => s.offset + 2
    case _ => s.offset
  }

  /** `behind` is what follows the payload up to the slice's capacity, by which Go bounds the type's two octets. */
  function LegacyOf(payload: seq<Byte>, behind: seq<Byte>): Legacy {
    if |payload| < HEADER || U16(payload, 4) == 0 then NoRecord
    else
      var s := ScanLabels(payload, HEADER);
      if LegacyEnd(s) + 2 > |payload| + |behind| then Crash
      else LegacyRecord(Join(s.labels, DOT), U16(payload + behind, LegacyEnd(s)), U16(payload, 2) % 16)
  }

  /** The label loop, with the offset it leaves behind. */
  method ScanLegacy(payload: seq<Byte>) returns (nameParts: seq<Label>, offset: nat)
    requires |payload| >= HEADER
    ensures var s := ScanLabels(payload, HEADER); nameParts == s.labels && offset == LegacyEnd(s)
  {
    offset, nameParts := HEADER, [];
    ghost var whole := ScanLabels(payload, HEADER);
    ghost var at := offset;
    while offset < |payload|
      invariant offset == at && Ahead(payload, nameParts, at, whole)
    {
      var length := payload[offset];
      if length == 0 {
        offset := offset + 1;
        break;
      }
      if IsPointer(length) {
        offset := offset + 2;
        break;
      }
      if offset + 1 + length > |payload| {
        break;
      }
      var text := payload[offset + 1..offset + 1 + length];
      AheadLabel(payload, nameParts, at, whole, text);
      nameParts := nameParts + [text];
      offset := offset + 1 + length;
      at := offset;
    }
    AheadStops(payload, nameParts, at, whole);
  }

  method ParseLegacy(payload: seq<Byte>, behind: seq<Byte>) returns (r: Legacy)
    ensures r == LegacyOf(payload, behind)
  {
    if |payload| < HEADER {
      return NoRecord;
    }
    var rcode := U16(payload, 2) % 16;
    if U16(payload, 4) == 0 {
      return NoRecord;
    }
    var nameParts, offset := ScanLegacy(payload);
    if offset + 2 > |payload| + |behind| {
      return Crash;
    }
    r := LegacyRecord(Join(nameParts, DOT), U16(payload + behind, offset), rcode);
  }

  /** What follows a slice does not show in fields inside it. */
  lemma U16Inside(payload: seq<Byte>, behind: seq<Byte>, i: nat)
    requires i + 2 <= |payload|
    ensures U16(payload + behind, i) == U16(payload, i)
  {
  }

  /** A header that announces a question, and nothing more: no type can be read. */
  lemma EmptyQuestionCrashes()
    ensures LegacyOf([0, 1, 1, 0, 0, 1, 0, 0, 0, 0, 0, 0], []) == Crash
  {
  }

  // ---------------------------------------------------------------------
  // The protocol collector's decoder
  // ---------------------------------------------------------------------

  datatype Collected = CollectedRecord(name: seq<Byte>, qtype: Option<nat>)

  function CollectorEnd(s: Scan): nat {
    if s.stop == AtPointer then s.offset + 2 else s.offset
  }

  function CollectorOf(payload: seq<Byte>): Option<Collected> {
    if |payload| < HEADER || U16(payload, 4) == 0 then None
    else
      var s := ScanLabels(payload, HEADER);
      Some(CollectedRecord(Join(s.labels, DOT),
                           if CollectorEnd(s) + 4 <= |payload| then Some(U16(payload, CollectorEnd(s) + 2)) else None))
  }

  method ScanCollected(payload: seq<Byte>) returns (nameParts: seq<Label>, offset: nat)
    requires |payload| >= HEADER
    ensures var s := ScanLabels(payload, HEADER); nameParts == s.labels && offset == CollectorEnd(s)
  {
    offset, nameParts := HEADER, [];
    ghost var whole := ScanLabels(payload, HEADER);
    ghost var at := offset;
    while offset < |payload|
      invariant offset == at && Ahead(payload, nameParts, at, whole)
    {
      var length := payload[offset];
      if length == 0 {
        break;
      }
      if IsPointer(length) {
        offset := offset + 2;
        break;
      }
      if offset + 1 + length > |payload| {
        break;
      }
      var text := payload[offset + 1..offset + 1 + length];
      AheadLabel(payload, nameParts, at, whole, text);
      nameParts := nameParts + [text];
      offset := offset + 1 + length;
      at := offset;
    }
    AheadStops(payload, nameParts, at, whole);
  }

  method ParseCollected(payload: seq<Byte>) returns (r: Option<Collected>)
    ensures r == CollectorOf(payload)
  {
    if |payload| < HEADER {
      return None;
    }
    if U16(payload, 4) == 0 {
      return None;
    }
    var nameParts, offset := ScanCollected(payload);
    var qtype := None;
    if offset + 4 <= |payload| {
      qtype := Some(U16(payload, offset + 2));
    }
    r := Some(CollectedRecord(Join(nameParts, DOT), qtype));
  }

  // ---------------------------------------------------------------------
  // The C probe's decoder
  // ---------------------------------------------------------------------

  const NAME_MAX: nat := 255

  datatype ProbeQuery = ProbeQuery(name: seq<Byte>, qtype: Option<nat>)

  function Clip(s: seq<Byte>): (r: seq<Byte>)
    ensures r <= s && |r| == if |s| <= NAME_MAX then |s| else NAME_MAX
  {
    if |s| <= NAME_MAX then s else s[..NAME_MAX]
  }

  function ProbeType(payload: seq<Byte>, s: Scan): Option<nat> {
    var typeOffset := if s.stop == Overrun then s.offset + 2 else s.offset + 1;
    if s.stop != AtPointer && typeOffset + 1 < |payload| then Some(U16(payload, typeOffset)) else None
  }

  function ProbeOf(payload: seq<Byte>): Option<ProbeQuery> {
    if |payload| < HEADER || U16(payload, 4) == 0 then None
    else
      var s := ScanLabels(payload, HEADER);
      Some(ProbeQuery(Clip(Join(s.labels, DOT)), ProbeType(payload, s)))
  }

  /** Appends octets to the name buffer until it holds 255 of them. */
  method AppendClipped(name: array<Byte>, len: nat, text: seq<Byte>) returns (newLen: nat)
    requires name.Length == 256 && len <= NAME_MAX
    modifies name
    ensures newLen <= NAME_MAX && name[..newLen] == Clip(old(name[..len]) + text)
  {
    newLen := len;
    var i := 0;
    ghost var before := name[..len];
    while i < |text| && newLen < NAME_MAX
      invariant 0 <= i <= |text| && newLen == len + i <= NAME_MAX
      invariant name[..newLen] == before + text[..i]
    {
      name[newLen] := text[i];
      newLen := newLen + 1;
      i := i + 1;
      assert name[..newLen] == before + text[..i];
    }
    if i == |text| {
      assert text[..i] == text;
    } else {
      assert (before + text)[..NAME_MAX] == before + text[..i];
    }
  }

  lemma ClipJoin(parts: seq<Label>, text: Label)
    requires text != []
    ensures parts == [] ==> Clip(Join(parts + [text], DOT)) == Clip(text)
    ensures parts != [] ==>
              Clip(Join(parts + [text], DOT)) == Clip(Clip(Clip(Join(parts, DOT)) + [DOT]) + text)
  {
    JoinSnoc(parts, text, DOT);
  }

  /** The buffer's text is the dotted, clipped name of these parts, none of them empty. */
  ghost predicate Filled(text: seq<Byte>, parts: seq<Label>) {
    text == Clip(Join(parts, DOT)) && (text == [] <==> parts == [])
  }

  /** One round of the label loop: a dot before every label but the first, then the label. */
  method AppendLabel(name: array<Byte>, len: nat, text: Label, ghost parts: seq<Label>) returns (newLen: nat)
    requires name.Length == 256 && len <= NAME_MAX && text != []
    requires Filled(name[..len], parts)
    modifies name
    ensures newLen <= NAME_MAX && Filled(name[..newLen], parts + [text])
  {
    newLen := len;
    if newLen > 0 && newLen < NAME_MAX {
      newLen := AppendClipped(name, newLen, [DOT]);
    }
    newLen := AppendClipped(name, newLen, text);
    ClipJoin(parts, text);
  }

  /** The label loop of the query branch, filling a 256-octet buffer. */
  method FillName(payload: seq<Byte>, name: array<Byte>) returns (nameLen: nat, offset: nat, jumped: bool)
    requires |payload| >= HEADER && name.Length == 256
    modifies name
    ensures var s := ScanLabels(payload, HEADER);
            && nameLen <= NAME_MAX && name[..nameLen] == Clip(Join(s.labels, DOT))
            && jumped == (s.stop == AtPointer)
            && offset == if s.stop == Overrun then s.offset + 1 else s.offset
  {
    offset, nameLen, jumped := HEADER, 0, false;
    ghost var parts: seq<Label> := [];
    ghost var whole := ScanLabels(payload, HEADER);
    ghost var stopped := offset;
    while offset < |payload| && payload[offset] != 0 && !jumped
      invariant offset == stopped && Ahead(payload, parts, stopped, whole)
      invariant nameLen <= NAME_MAX && Filled(name[..nameLen], parts) && !jumped
    {
      var labelLen := payload[offset];
      if labelLen >= 0xC0 {
        jumped := true;
        break;
      }
      offset := offset + 1;
      if offset + labelLen > |payload| {
        break;
      }
      var text := payload[offset..offset + labelLen];
      AheadLabel(payload, parts, stopped, whole, text);
      nameLen := AppendLabel(name, nameLen, text, parts);
      parts := parts + [text];
      offset := offset + labelLen;
      stopped := offset;
    }
    AheadStops(payload, parts, stopped, whole);
  }

  /** The query branch. */
  method ParseProbe(payload: seq<Byte>) returns (r: Option<ProbeQuery>)
    ensures r == ProbeOf(payload)
  {
    if |payload| < HEADER {
      return None;
    }
    if U16(payload, 4) == 0 {
      return None;
    }
    var name := new Byte[256];
    var nameLen, offset, jumped := FillName(payload, name);
    var typeOffset := offset + 1;
    var qtype := None;
    if !jumped && typeOffset + 1 < |payload| {
      qtype := Some(U16(payload, typeOffset));
    }
    r := Some(ProbeQuery(name[..nameLen], qtype));
  }

  // ---------------------------------------------------------------------
  // What each of them reports, on any payload
  // ---------------------------------------------------------------------

  /** `labels`, of up to 191 octets each, stand one right after another from `off` to `end`. */
  ghost predicate Walks(data: seq<Byte>, off: nat, labels: seq<Label>, end: nat)
    decreases |labels|
  {
    if labels == [] then off == end
    else
      && off < |data| && |labels[0]| == data[off] && 1 <= data[off] <= 191
      && off + 1 + data[off] <= |data| && data[off + 1..off + 1 + data[off]] == labels[0]
      && Walks(data, off + 1 + data[off], labels[1..], end)
  }

  /** Why no label can be read at `end`. */
  ghost predicate StopsAt(data: seq<Byte>, end: nat, stop: Stop) {
    match stop
    case AtEnd => end >= |data|
    case AtRoot => end < |data| && data[end] == 0
    case AtPointer => end < |data| && data[end] >= 192
    case Overrun => end < |data| && 1 <= data[end] <= 191 && end + 1 + data[end] > |data|
  }

  lemma {:induction false} ScanIff(data: seq<Byte>, off: nat, s: Scan)
    ensures ScanLabels(data, off) == s <==> Walks(data, off, s.labels, s.offset) && StopsAt(data, s.offset, s.stop)
    decreases |data| - off
  {
    if off < |data| && 1 <= data[off] <= 191 && off + 1 + data[off] <= |data| {
      var mid, text := off + 1 + data[off], data[off + 1..off + 1 + data[off]];
      ScanIff(data, mid, ScanLabels(data, mid));
      if s.labels != [] {
        ScanIff(data, mid, Scan(s.labels[1..], s.offset, s.stop));
        assert s.labels == [s.labels[0]] + s.labels[1..];
      }
      assert ([text] + ScanLabels(data, mid).labels)[1..] == ScanLabels(data, mid).labels;
    }
  }

  /** A packet whose plain labels end at `end`, after a header that announces a question. */
  ghost predicate Labelled(payload: seq<Byte>, labels: seq<Label>, end: nat, stop: Stop) {
    && |payload| >= HEADER && (payload[4] != 0 || payload[5] != 0)
    && Walks(payload, HEADER, labels, end) && StopsAt(payload, end, stop)
  }

  /** Whatever stops it, each sibling reports the labels it read, and two octets at an offset of its own. */
  lemma LegacyReports(payload: seq<Byte>, behind: seq<Byte>, labels: seq<Label>, end: nat, stop: Stop)
    requires Labelled(payload, labels, end, stop)
    ensures var at := end + match stop case AtRoot => 1 case AtPointer => 2 case _ => 0;
            LegacyOf(payload, behind) ==
            if at + 2 > |payload| + |behind| then Crash
            else LegacyRecord(Join(labels, DOT), U16(payload + behind, at), payload[3] % 16)
  {
    ScanIff(payload, HEADER, Scan(labels, end, stop));
    FlagsOctets(payload[2], payload[3]);
  }

  lemma CollectorReports(payload: seq<Byte>, labels: seq<Label>, end: nat, stop: Stop)
    requires Labelled(payload, labels, end, stop)
    ensures var at := end + if stop == AtPointer then 4 else 2;
            CollectorOf(payload) ==
            Some(CollectedRecord(Join(labels, DOT), if at + 2 <= |payload| then Some(U16(payload, at)) else None))
  {
    ScanIff(payload, HEADER, Scan(labels, end, stop));
  }

  lemma ProbeReports(payload: seq<Byte>, labels: seq<Label>, end: nat, stop: Stop)
    requires Labelled(payload, labels, end, stop)
    ensures var at, name := end + (if stop == Overrun then 2 else 1), Join(labels, DOT);
            ProbeOf(payload) ==
            Some(ProbeQuery(if |name| <= 255 then name else name[..255],
                            if stop != AtPointer && at + 2 <= |payload| then Some(U16(payload, at)) else None))
  {
    ScanIff(payload, HEADER, Scan(labels, end, stop));
  }

  /** Without a question, or a whole header, none of them reports anything. */
  lemma NothingReported(payload: seq<Byte>, behind: seq<Byte>)
    ensures |payload| < HEADER || (payload[4] == 0 && payload[5] == 0) <==> LegacyOf(payload, behind) == NoRecord
    ensures |payload| < HEADER || (payload[4] == 0 && payload[5] == 0) <==> CollectorOf(payload) == None
    ensures |payload| < HEADER || (payload[4] == 0 && payload[5] == 0) <==> ProbeOf(payload) == None
  {
  }

  // ---------------------------------------------------------------------
  // Agreement with the full decoder
  // ---------------------------------------------------------------------

  /**
   * `r` continues the scan `s`: the scan stopped at the root and is the whole
   * name, or it stopped at a pointer and the name goes on where that leads.
   */
  ghost predicate Extends(data: seq<Byte>, hops: nat, s: Scan, r: NameResult) {
    match s.stop
    case AtRoot => r == Ok(s.labels, s.offset + 1)
    case AtPointer =>
      && hops > 0 && s.offset + 2 <= |data|
      && Decode(data, Target(data, s.offset), hops - 1).Ok?
      && r == Ok(s.labels + Decode(data, Target(data, s.offset), hops - 1).labels, s.offset + 2)
    case _ => false
  }

  lemma ExtendsLabel(data: seq<Byte>, hops: nat, s: Scan, r: NameResult, text: Label)
    requires Extends(data, hops, s, r)
    ensures Extends(data, hops, Continue([text], s), Prepend([text], r))
  {
    if s.stop == AtPointer {
      var tail := Decode(data, Target(data, s.offset), hops - 1).labels;
      assert [text] + (s.labels + tail) == ([text] + s.labels) + tail;
    }
  }

  /** Wherever the full decoder succeeds, its name continues the plain scan. */
  lemma {:induction false} DecodeExtendsScan(data: seq<Byte>, off: nat, hops: nat)
    requires Decode(data, off, hops).Ok?
    ensures Extends(data, hops, ScanLabels(data, off), Decode(data, off, hops))
    decreases |data| - off
  {
    if data[off] == 0 {
    } else if IsPointer(data[off]) {
      var tail := Decode(data, Target(data, off), hops - 1).labels;
      assert [] + tail == tail;
    } else {
      var mid := off + 1 + data[off];
      DecodeExtendsScan(data, mid, hops);
      ExtendsLabel(data, hops, ScanLabels(data, mid), Decode(data, mid, hops), data[off + 1..mid]);
    }
  }

  /** The three siblings report a prefix of the full name, and all of it exactly when no pointer adds labels. */
  lemma SiblingsCompleteIff(data: seq<Byte>, off: nat, hops: nat)
    requires Decode(data, off, hops).Ok?
    ensures var s, r := ScanLabels(data, off), Decode(data, off, hops);
            && s.labels <= r.labels
            && (s.labels == r.labels <==>
                  || s.stop == AtRoot
                  || (s.offset + 2 <= |data| && hops > 0 && Decode(data, Target(data, s.offset), hops - 1).Ok?
                      && Decode(data, Target(data, s.offset), hops - 1).labels == []))
  {
    DecodeExtendsScan(data, off, hops);
    SiblingsCompleteFrom(data, hops, ScanLabels(data, off), Decode(data, off, hops));
  }

  lemma SiblingsCompleteFrom(data: seq<Byte>, hops: nat, s: Scan, r: NameResult)
    requires Extends(data, hops, s, r)
    ensures r.Ok? && s.labels <= r.labels
    ensures s.labels == r.labels <==>
              || s.stop == AtRoot
              || (s.offset + 2 <= |data| && hops > 0 && Decode(data, Target(data, s.offset), hops - 1).Ok?
                  && Decode(data, Target(data, s.offset), hops - 1).labels == [])
  {
    if s.stop == AtPointer && s.labels == r.labels {
      assert |r.labels| == |s.labels| + |Decode(data, Target(data, s.offset), hops - 1).labels|;
    }
  }

  /** The first question is complete and uncompressed. */
  ghost predicate HoldsQuestion(payload: seq<Byte>, labels: seq<Label>, qtype: nat, qclass: nat) {
    && |payload| >= HEADER && U16(payload, 4) > 0
    && ValidLabels(labels) && At(payload, HEADER, EncodeName(labels))
    && var mid := HEADER + |EncodeName(labels)|;
       mid + 4 <= |payload| && U16(payload, mid) == qtype && U16(payload, mid + 2) == qclass
  }

  /** A plain name in place is scanned whole. */
  lemma ScanPlain(data: seq<Byte>, off: nat, labels: seq<Label>)
    requires ValidLabels(labels) && At(data, off, EncodeName(labels))
    ensures ScanLabels(data, off) == Scan(labels, off + |EncodeName(labels)| - 1, AtRoot)
  {
    DecodePlain(data, off, labels, 0);
    DecodeExtendsScan(data, off, 0);
  }

  lemma FullDecoder(payload: seq<Byte>, labels: seq<Label>, qtype: nat, qclass: nat)
    requires HoldsQuestion(payload, labels, qtype, qclass)
    ensures Packet(payload).Some? && Packet(payload).value.question == Some(Question(labels, qtype))
  {
    DecodePlain(payload, HEADER, labels, MAX_HOPS);
    PacketWithQuestion(payload, labels, HEADER + |EncodeName(labels)|);
  }

  lemma SiblingDecoders(payload: seq<Byte>, behind: seq<Byte>, labels: seq<Label>, root: nat)
    requires |payload| >= HEADER && U16(payload, 4) > 0 && root + 5 <= |payload|
    requires ScanLabels(payload, HEADER) == Scan(labels, root, AtRoot)
    ensures LegacyOf(payload, behind) == LegacyRecord(Join(labels, DOT), U16(payload, root + 1), U16(payload, 2) % 16)
    ensures ProbeOf(payload) == Some(ProbeQuery(Clip(Join(labels, DOT)), Some(U16(payload, root + 1))))
    ensures CollectorOf(payload) == Some(CollectedRecord(Join(labels, DOT), Some(U16(payload, root + 2))))
  {
    U16Inside(payload, behind, root + 1);
  }

  /** Read one octet late, a type is its own low octet and the next field's high octet. */
  lemma LateType(payload: seq<Byte>, i: nat)
    requires i + 4 <= |payload|
    ensures U16(payload, i + 1) == U16(payload, i) % 256 * 256 + U16(payload, i + 2) / 256
  {
    assert U16(payload, i) % 256 == payload[i + 1] && U16(payload, i + 2) / 256 == payload[i + 2];
  }

  /**
   * On a payload whose first question is complete and uncompressed all four
   * decoders give its name (the C probe its first 255 octets) and three give
   * its type; the collector's type is the low octet of the type followed by
   * the high octet of the class.
   */
  lemma FourDecodersAgree(payload: seq<Byte>, behind: seq<Byte>, labels: seq<Label>, qtype: nat, qclass: nat)
    requires HoldsQuestion(payload, labels, qtype, qclass)
    ensures Packet(payload).Some? && Packet(payload).value.question == Some(Question(labels, qtype))
    ensures LegacyOf(payload, behind) == LegacyRecord(Join(labels, DOT), qtype, U16(payload, 2) % 16)
    ensures ProbeOf(payload) == Some(ProbeQuery(Clip(Join(labels, DOT)), Some(qtype)))
    ensures CollectorOf(payload) == Some(CollectedRecord(Join(labels, DOT), Some(qtype % 256 * 256 + qclass / 256)))
  {
    FullDecoder(payload, labels, qtype, qclass);
    ScanPlain(payload, HEADER, labels);
    var root := HEADER + |EncodeName(labels)| - 1;
    SiblingDecoders(payload, behind, labels, root);
    LateType(payload, root + 1);
  }

  /** The full decoder accepts the payload's first question, whose name ends before `next`. */
  predicate Asks(payload: seq<Byte>, name: seq<Label>, qtype: nat, next: nat) {
    && |payload| >= HEADER && U16(payload, 4) > 0
    && Decode(payload, HEADER, MAX_HOPS) == Ok(name, next)
    && next + 2 <= |payload| && U16(payload, next) == qtype
  }

  lemma AsksIff(payload: seq<Byte>, name: seq<Label>, qtype: nat)
    ensures Packet(payload).Some? && Packet(payload).value.question == Some(Question(name, qtype)) <==>
            exists next :: Asks(payload, name, qtype, next)
  {
    if Packet(payload).Some? && Packet(payload).value.question == Some(Question(name, qtype)) {
      assert Asks(payload, name, qtype, Decode(payload, HEADER, MAX_HOPS).next);
    }
  }

  /** The collector read the question's type right. */
  predicate TypeRight(payload: seq<Byte>, qtype: nat) {
    CollectorOf(payload).Some? && CollectorOf(payload).value.qtype == Some(qtype)
  }

  /** The plain scan of an accepted name stops at its root octet, or at a pointer that ends it. */
  lemma ScanEnds(data: seq<Byte>, off: nat, name: seq<Label>, next: nat)
    requires Decode(data, off, MAX_HOPS) == Ok(name, next)
    ensures var s := ScanLabels(data, off);
            (s.stop == AtRoot && s.offset + 1 == next) || (s.stop == AtPointer && s.offset + 2 == next)
  {
    DecodeExtendsScan(data, off, MAX_HOPS);
  }

  lemma TypeAfterRoot(payload: seq<Byte>, qtype: nat, next: nat)
    requires |payload| >= HEADER && U16(payload, 4) > 0 && next + 2 <= |payload| && U16(payload, next) == qtype
    requires ScanLabels(payload, HEADER).stop == AtRoot && ScanLabels(payload, HEADER).offset + 1 == next
    ensures TypeRight(payload, qtype) <==> next + 3 <= |payload| && qtype == payload[next + 2] as int * 257
  {
    if next + 3 <= |payload| {
      ShiftedOctets(payload[next], payload[next + 1], payload[next + 2]);
    }
  }

  lemma TypeAfterPointer(payload: seq<Byte>, qtype: nat, next: nat)
    requires |payload| >= HEADER && U16(payload, 4) > 0
    requires ScanLabels(payload, HEADER).stop == AtPointer && ScanLabels(payload, HEADER).offset + 2 == next
    ensures TypeRight(payload, qtype) <==> next + 4 <= |payload| && qtype == U16(payload, next + 2)
  {
  }

  /**
   * On every question the full decoder accepts, the collector's type is right
   * exactly when, after a root octet, the class's first octet is there and
   * both octets of the type equal it; or, after a pointer, the class is there
   * and the type equals it.
   */
  lemma CollectorTypeIff(payload: seq<Byte>, name: seq<Label>, qtype: nat, next: nat)
    requires Asks(payload, name, qtype, next)
    ensures TypeRight(payload, qtype) <==>
            if ScanLabels(payload, HEADER).stop == AtPointer
            then next + 4 <= |payload| && qtype == U16(payload, next + 2)
            else next + 3 <= |payload| && qtype == payload[next + 2] as int * 257
  {
    ScanEnds(payload, HEADER, name, next);
    if ScanLabels(payload, HEADER).stop == AtRoot {
      TypeAfterRoot(payload, qtype, next);
    } else {
      TypeAfterPointer(payload, qtype, next);
    }
  }

  lemma ShiftedOctets(hi: Byte, lo: Byte, next: Byte)
    ensures lo as int * 256 + next == hi as int * 256 + lo <==> hi as int * 256 + lo == next as int * 257
  {
  }

  /** With class IN, a nonzero type is read right exactly when a pointer ends the name and the type is 1. */
  lemma CollectorTypeWrongForInternet(payload: seq<Byte>, name: seq<Label>, qtype: nat, next: nat)
    requires Asks(payload, name, qtype, next) && qtype > 0
    requires next + 4 <= |payload| && U16(payload, next + 2) == 1
    ensures TypeRight(payload, qtype) <==> ScanLabels(payload, HEADER).stop == AtPointer && qtype == 1
  {
    CollectorTypeIff(payload, name, qtype, next);
    assert payload[next + 2] == 0;
  }

  /** A query for the address of the name `a`: the type is 1 and the collector reports 256. */
  lemma AddressQueryMisread()
    ensures var payload := [0, 1, 1, 0, 0, 1, 0, 0, 0, 0, 0, 0, 1, 97, 0, 0, 1, 0, 1];
            && Asks(payload, [[97]], 1, 15)
            && CollectorOf(payload) == Some(CollectedRecord([97], Some(256)))
  {
    var payload: seq<Byte> := [0, 1, 1, 0, 0, 1, 0, 0, 0, 0, 0, 0, 1, 97, 0, 0, 1, 0, 1];
    assert payload[13..14] == [97];
    assert Decode(payload, 14, MAX_HOPS) == Ok([], 15);
    assert ScanLabels(payload, 14) == Scan([], 14, AtRoot);
    assert [[97]] + [] == [[97]];
  }

  /**
   * On every packet with a question that the full decoder accepts, compressed
   * or not, the legacy decoder does not crash, agrees on type and response
   * code, and reports a prefix of the labels.
   */
  lemma LegacyAgreesOnType(payload: seq<Byte>, behind: seq<Byte>)
    requires Packet(payload).Some? && Packet(payload).value.question.Some?
    ensures var q, labels := Packet(payload).value.question.value, ScanLabels(payload, HEADER).labels;
            && LegacyOf(payload, behind) == LegacyRecord(Join(labels, DOT), q.qtype, Packet(payload).value.rcode)
            && labels <= q.name
  {
    DecodeExtendsScan(payload, HEADER, MAX_HOPS);
    SameEnd(payload, MAX_HOPS, ScanLabels(payload, HEADER), Decode(payload, HEADER, MAX_HOPS));
    U16Inside(payload, behind, Decode(payload, HEADER, MAX_HOPS).next);
  }

  /**
   * On every question whose name decodes, the legacy decoder crashes exactly
   * when the type does not fit the slice's capacity; without spare capacity,
   * exactly when the full decoder refuses the packet.
   */
  lemma LegacyCrashesIff(payload: seq<Byte>, behind: seq<Byte>, name: seq<Label>, next: nat)
    requires |payload| >= HEADER && U16(payload, 4) > 0 && Decode(payload, HEADER, MAX_HOPS) == Ok(name, next)
    ensures LegacyOf(payload, behind) == Crash <==> next + 2 > |payload| + |behind|
    ensures LegacyOf(payload, []) == Crash <==> Packet(payload).None?
  {
    DecodeExtendsScan(payload, HEADER, MAX_HOPS);
    SameEnd(payload, MAX_HOPS, ScanLabels(payload, HEADER), Decode(payload, HEADER, MAX_HOPS));
  }

  lemma SameEnd(data: seq<Byte>, hops: nat, s: Scan, r: NameResult)
    requires Extends(data, hops, s, r)
    ensures r.Ok? && LegacyEnd(s) == r.next && s.labels <= r.labels
  {
  }
}
