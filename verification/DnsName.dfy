/**
 * Domain names on the wire (sections 3.1 and 4.1.4 of RFC 1035): the
 * pointer-following decoder of the probe, against a derivation relation.
 */
module DnsName {
  import opened Bytes
  import opened Layout

  type Label = seq<Byte>

  /** Pointers followed before the decoder gives up. */
  const MAX_HOPS: nat := 5

  /** The decoder's answer: failure (offset -1), or the labels and the offset after the name. */
  datatype NameResult = Fail | Ok(labels: seq<Label>, next: nat)

  /** Both top bits set: the octet opens a compression pointer. */
  predicate IsPointer(b: Byte) {
    b >= 0xC0
  }

  /** The low fourteen bits of the two octets at `off`. */
  function Target(data: seq<Byte>, off: nat): (r: nat)
    requires off + 2 <= |data|
    ensures r < 0x4000
  {
    U16(data, off) % 0x4000
  }

  // ---------------------------------------------------------------------
  // The wire format as a relation
  // ---------------------------------------------------------------------

  /** The shape of a derivation: where the walk reads a label, jumps, and ends. */
  datatype Path = Root | Step(rest: Path) | Jump(rest: Path)

  function Hops(p: Path): nat {
    match p
    case Root => 0
    case Step(rest) => Hops(rest)
    case Jump(rest) => 1 + Hops(rest)
  }

  /** `p` derives the name `labels` from offset `off` of the message. */
  ghost predicate Derives(data: seq<Byte>, off: nat, p: Path, labels: seq<Label>)
    decreases p
  {
    match p
    case Root =>
      off < |data| && data[off] == 0 && labels == []
    case Step(rest) =>
      && off < |data|
      && 1 <= data[off] <= 63
      && off + 1 + data[off] <= |data|
      && labels != []
      && labels[0] == data[off + 1..off + 1 + data[off]]
      && Derives(data, off + 1 + data[off], rest, labels[1..])
    case Jump(rest) =>
      && off + 2 <= |data|
      && IsPointer(data[off])
      && Derives(data, Target(data, off), rest, labels)
  }

  /** Where the name's own octets end: past the first pointer, or past the root octet. */
  ghost function EndOf(data: seq<Byte>, off: nat, p: Path, labels: seq<Label>): (r: nat)
    requires Derives(data, off, p, labels)
    ensures off < r <= |data|
    decreases p
  {
    match p
    case Root => off + 1
    case Step(rest) => EndOf(data, off + 1 + data[off], rest, labels[1..])
    case Jump(_) => off + 2
  }

  /** Some derivation with at most `hops` pointers gives `labels` and ends at `next`. */
  ghost predicate Derivable(data: seq<Byte>, off: nat, hops: nat, labels: seq<Label>, next: nat) {
    exists p :: Derives(data, off, p, labels) && Hops(p) <= hops && EndOf(data, off, p, labels) == next
  }

  /** Some derivation with at most `hops` pointers gives `labels`, wherever it ends. */
  ghost predicate Names(data: seq<Byte>, off: nat, hops: nat, labels: seq<Label>) {
    exists next :: Derivable(data, off, hops, labels, next)
  }

  // ---------------------------------------------------------------------
  // The decoder
  // ---------------------------------------------------------------------

  function Prepend(labels: seq<Label>, r: NameResult): NameResult {
    match r
    case Fail => Fail
    case Ok(rest, next) => Ok(labels + rest, next)
  }

  /** The name at `off`, following at most `hops` pointers. */
  function Decode(data: seq<Byte>, off: nat, hops: nat): (r: NameResult)
    ensures r.Ok? ==> off < r.next <= |data|
    decreases hops, |data| - off
  {
    if off >= |data| then Fail
    else
      var length := data[off];
      if length == 0 then Ok([], off + 1)
      else if IsPointer(length) then
        if off + 1 >= |data| || hops == 0 then Fail
        else
          match Decode(data, Target(data, off), hops - 1)
          case Fail => Fail
          case Ok(labels, _) => Ok(labels, off + 2)
      else if length > 63 || off + 1 + length > |data| then Fail
      else Prepend([data[off + 1..off + 1 + length]], Decode(data, off + 1 + length, hops))
  }

  lemma PrependPrepend(a: seq<Label>, b: seq<Label>, r: NameResult)
    ensures Prepend(a, Prepend(b, r)) == Prepend(a + b, r)
  {
    if r.Ok? {
      assert a + (b + r.labels) == (a + b) + r.labels;
    }
  }

  /** The result of the whole walk, given what is collected so far and the result of the rest. */
  function Resume(parts: seq<Label>, jumped: bool, saved: nat, r: NameResult): NameResult {
    match r
    case Fail => Fail
    case Ok(rest, next) => Ok(parts + rest, if jumped then saved else next)
  }

  lemma ResumeLabel(parts: seq<Label>, text: Label, jumped: bool, saved: nat, r: NameResult)
    ensures Resume(parts, jumped, saved, Prepend([text], r)) == Resume(parts + [text], jumped, saved, r)
  {
    if r.Ok? {
      assert parts + ([text] + r.labels) == (parts + [text]) + r.labels;
    }
  }

  lemma PrependNil(r: NameResult)
    ensures Prepend([], r) == r
  {
    if r.Ok? {
      assert [] + r.labels == r.labels;
    }
  }

  lemma PrependCons(labels: seq<Label>, r: NameResult)
    requires labels != []
    ensures Prepend([labels[0]], Prepend(labels[1..], r)) == Prepend(labels, r)
  {
    PrependPrepend([labels[0]], labels[1..], r);
    assert [labels[0]] + labels[1..] == labels;
  }

  /** The loop with its `jumped` flag, remembered offset and hop counter. */
  method ParseName(data: seq<Byte>, start: nat) returns (r: NameResult)
    ensures r == Decode(data, start, MAX_HOPS)
  {
    if start >= |data| {
      return Fail;
    }
    var offset: nat := start;
    var parts: seq<Label> := [];
    var jumped := false;
    var originalOffset: nat := start;
    var jumps := 0;
    ghost var whole := Decode(data, start, MAX_HOPS);
    while true
      invariant 0 <= jumps <= MAX_HOPS
      invariant whole == Resume(parts, jumped, originalOffset, Decode(data, offset, MAX_HOPS - jumps))
      decreases MAX_HOPS - jumps, |data| - offset
    {
      if offset >= |data| {
        return Fail;
      }
      var length := data[offset];
      if length == 0 {
        offset := offset + 1;
        break;
      }
      if IsPointer(length) {
        if offset + 1 >= |data| {
          return Fail;
        }
        var pointer := Target(data, offset);
        if !jumped {
          originalOffset := offset + 2;
        }
        if jumps >= MAX_HOPS {
          return Fail;
        }
        jumps := jumps + 1;
        offset := pointer;
        jumped := true;
        continue;
      }
      if length > 63 {
        return Fail;
      }
      if offset + 1 + length > |data| {
        return Fail;
      }
      var text := data[offset + 1..offset + 1 + length];
      ResumeLabel(parts, text, jumped, originalOffset, Decode(data, offset + 1 + length, MAX_HOPS - jumps));
      parts := parts + [text];
      offset := offset + 1 + length;
    }
    assert parts + [] == parts;
    r := Ok(parts, if jumped then originalOffset else offset);
  }

  // ---------------------------------------------------------------------
  // Soundness and completeness
  // ---------------------------------------------------------------------

  /** Every successful decoding has a derivation within the hop budget. */
  lemma {:induction false} DecodeIsSound(data: seq<Byte>, off: nat, hops: nat) returns (p: Path)
    requires Decode(data, off, hops).Ok?
    ensures Derives(data, off, p, Decode(data, off, hops).labels)
    ensures Hops(p) <= hops
    ensures EndOf(data, off, p, Decode(data, off, hops).labels) == Decode(data, off, hops).next
    decreases hops, |data| - off
  {
    if data[off] == 0 {
      p := Root;
    } else if IsPointer(data[off]) {
      var rest := DecodeIsSound(data, Target(data, off), hops - 1);
      p := Jump(rest);
    } else {
      var rest := DecodeIsSound(data, off + 1 + data[off], hops);
      p := Step(rest);
      assert Decode(data, off, hops).labels[1..] == Decode(data, off + 1 + data[off], hops).labels;
    }
  }

  /** Every derivation within the hop budget is found, with its labels and its end. */
  lemma {:induction false} DecodeIsComplete(data: seq<Byte>, off: nat, hops: nat, p: Path, labels: seq<Label>)
    requires Derives(data, off, p, labels) && Hops(p) <= hops
    ensures Decode(data, off, hops) == Ok(labels, EndOf(data, off, p, labels))
    decreases p
  {
    match p
    case Root =>
    case Step(rest) =>
      DecodeIsComplete(data, off + 1 + data[off], hops, rest, labels[1..]);
      assert labels == [labels[0]] + labels[1..];
    case Jump(rest) =>
      DecodeIsComplete(data, Target(data, off), hops - 1, rest, labels);
  }

  /** The decoder succeeds with `labels` and `next` exactly when the relation admits them. */
  lemma DecodesIffDerivable(data: seq<Byte>, off: nat, hops: nat, labels: seq<Label>, next: nat)
    ensures Decode(data, off, hops) == Ok(labels, next) <==> Derivable(data, off, hops, labels, next)
  {
    if Decode(data, off, hops) == Ok(labels, next) {
      var p := DecodeIsSound(data, off, hops);
    }
    if Derivable(data, off, hops, labels, next) {
      var p :| Derives(data, off, p, labels) && Hops(p) <= hops && EndOf(data, off, p, labels) == next;
      DecodeIsComplete(data, off, hops, p, labels);
    }
  }

  lemma DecodedIsNamed(data: seq<Byte>, off: nat, hops: nat)
    requires Decode(data, off, hops).Ok?
    ensures Names(data, off, hops, Decode(data, off, hops).labels)
  {
    var r := Decode(data, off, hops);
    DecodesIffDerivable(data, off, hops, r.labels, r.next);
  }

  /** A message gives an offset at most one derivation, whatever the budget. */
  lemma {:induction false} DerivationIsUnique(data: seq<Byte>, off: nat, p: Path, q: Path,
                                              pLabels: seq<Label>, qLabels: seq<Label>)
    requires Derives(data, off, p, pLabels) && Derives(data, off, q, qLabels)
    ensures p == q && pLabels == qLabels
    decreases p
  {
    match p
    case Root =>
    case Step(rest) =>
      DerivationIsUnique(data, off + 1 + data[off], rest, q.rest, pLabels[1..], qLabels[1..]);
      assert pLabels == [pLabels[0]] + pLabels[1..] && qLabels == [qLabels[0]] + qLabels[1..];
    case Jump(rest) =>
      DerivationIsUnique(data, Target(data, off), rest, q.rest, pLabels, qLabels);
  }

  /** A derivable name is refused exactly when its one derivation needs more pointers than the budget. */
  lemma RefusedIffTooManyHops(data: seq<Byte>, off: nat, hops: nat, p: Path, labels: seq<Label>)
    requires Derives(data, off, p, labels)
    ensures Decode(data, off, hops).Fail? <==> Hops(p) > hops
  {
    if Decode(data, off, hops).Ok? {
      var q := DecodeIsSound(data, off, hops);
      DerivationIsUnique(data, off, p, q, labels, Decode(data, off, hops).labels);
    } else if Hops(p) <= hops {
      DecodeIsComplete(data, off, hops, p, labels);
    }
  }

  // ---------------------------------------------------------------------
  // Encodings, and the decoder as their inverse
  // ---------------------------------------------------------------------

  ghost predicate ValidLabels(labels: seq<Label>) {
    forall l | l in labels :: 1 <= |l| <= 63
  }

  function EncodeLabel(text: Label): seq<Byte>
    requires 1 <= |text| <= 63
  {
    [|text|] + text
  }

  /** Length octet and text of each label, without a terminator. */
  function EncodeLabels(labels: seq<Label>): seq<Byte>
    requires forall l | l in labels :: 1 <= |l| <= 63
  {
    if labels == [] then [] else EncodeLabel(labels[0]) + EncodeLabels(labels[1..])
  }

  /** An uncompressed name: the labels and the root octet. */
  function EncodeName(labels: seq<Label>): seq<Byte>
    requires forall l | l in labels :: 1 <= |l| <= 63
  {
    EncodeLabels(labels) + [0]
  }

  function EncodePointer(target: nat): (s: seq<Byte>)
    requires target < 0x4000
    ensures |s| == 2 && IsPointer(s[0]) && Target(s, 0) == target
  {
    PutU16(0xC000 + target)
  }

  lemma DecodeOneLabel(data: seq<Byte>, off: nat, text: Label, hops: nat)
    requires 1 <= |text| <= 63 && At(data, off, EncodeLabel(text))
    ensures Decode(data, off, hops) == Prepend([text], Decode(data, off + 1 + |text|, hops))
  {
    AtConcat(data, off, [|text|], text);
    AtOctet(data, off, [|text|], 0);
    AtSlice(data, off + 1, text);
  }

  /** Labels in place are read off one by one; decoding goes on right after them. */
  lemma {:induction false} DecodeLabels(data: seq<Byte>, off: nat, labels: seq<Label>, end: nat, hops: nat)
    requires ValidLabels(labels) && At(data, off, EncodeLabels(labels)) && end == off + |EncodeLabels(labels)|
    ensures Decode(data, off, hops) == Prepend(labels, Decode(data, end, hops))
    decreases |labels|
  {
    if labels == [] {
      PrependNil(Decode(data, off, hops));
    } else {
      AtConcat(data, off, EncodeLabel(labels[0]), EncodeLabels(labels[1..]));
      DecodeOneLabel(data, off, labels[0], hops);
      DecodeLabels(data, off + 1 + |labels[0]|, labels[1..], end, hops);
      PrependCons(labels, Decode(data, end, hops));
    }
  }

  /** A plain name in place decodes to its labels and to the offset right after it. */
  lemma DecodePlain(data: seq<Byte>, off: nat, labels: seq<Label>, hops: nat)
    requires ValidLabels(labels) && At(data, off, EncodeName(labels))
    ensures Decode(data, off, hops) == Ok(labels, off + |EncodeName(labels)|)
  {
    AtConcat(data, off, EncodeLabels(labels), [0]);
    AtOctet(data, off + |EncodeLabels(labels)|, [0], 0);
    DecodeLabels(data, off, labels, off + |EncodeLabels(labels)|, hops);
    assert labels + [] == labels;
  }

  /** A compressed name decodes to its labels followed by whatever its pointer leads to. */
  lemma DecodeCompressed(data: seq<Byte>, off: nat, labels: seq<Label>, target: nat, hops: nat)
    requires ValidLabels(labels) && target < 0x4000
    requires At(data, off, EncodeLabels(labels) + EncodePointer(target))
    ensures Decode(data, off, hops + 1) ==
            match Decode(data, target, hops)
            case Fail => Fail
            case Ok(rest, _) => Ok(labels + rest, off + |EncodeLabels(labels)| + 2)
  {
    var ptr := off + |EncodeLabels(labels)|;
    AtConcat(data, off, EncodeLabels(labels), EncodePointer(target));
    AtOctet(data, ptr, EncodePointer(target), 0);
    AtOctet(data, ptr, EncodePointer(target), 1);
    DecodeLabels(data, off, labels, ptr, hops + 1);
  }

  /** A compressed name whose pointer leads to `tail` decodes to its labels followed by `tail`. */
  lemma DecodeLinked(data: seq<Byte>, off: nat, labels: seq<Label>, target: nat, tail: seq<Label>)
    requires ValidLabels(labels) && target < 0x4000
    requires At(data, off, EncodeLabels(labels) + EncodePointer(target))
    requires Names(data, target, MAX_HOPS - 1, tail)
    ensures Decode(data, off, MAX_HOPS) == Ok(labels + tail, off + |EncodeLabels(labels)| + 2)
  {
    var next :| Derivable(data, target, MAX_HOPS - 1, tail, next);
    DecodesIffDerivable(data, target, MAX_HOPS - 1, tail, next);
    DecodeCompressed(data, off, labels, target, MAX_HOPS - 1);
  }

  /** Between any prefix and any suffix the decoder inverts the plain encoding. */
  lemma PlainRoundTrip(pre: seq<Byte>, labels: seq<Label>, suf: seq<Byte>)
    requires ValidLabels(labels)
    ensures Decode(pre + EncodeName(labels) + suf, |pre|, MAX_HOPS) ==
            Ok(labels, |pre| + |EncodeName(labels)|)
  {
    AtContext(pre, EncodeName(labels), suf);
    DecodePlain(pre + EncodeName(labels) + suf, |pre|, labels, MAX_HOPS);
  }

  /** Between any prefix and any suffix the decoder inverts the compressed encoding. */
  lemma CompressedRoundTrip(pre: seq<Byte>, labels: seq<Label>, target: nat, tail: seq<Label>, suf: seq<Byte>)
    requires ValidLabels(labels) && target < 0x4000
    requires Names(pre + (EncodeLabels(labels) + EncodePointer(target)) + suf, target, MAX_HOPS - 1, tail)
    ensures var data := pre + (EncodeLabels(labels) + EncodePointer(target)) + suf;
            Decode(data, |pre|, MAX_HOPS) == Ok(labels + tail, |pre| + |EncodeLabels(labels)| + 2)
  {
    var data := pre + (EncodeLabels(labels) + EncodePointer(target)) + suf;
    AtContext(pre, EncodeLabels(labels) + EncodePointer(target), suf);
    DecodeLinked(data, |pre|, labels, target, tail);
  }

  /** Conversely, octets decoded without a pointer are exactly the encoding of their labels. */
  lemma {:induction false} PointerFreeIsEncoding(data: seq<Byte>, off: nat)
    requires Decode(data, off, 0).Ok?
    ensures var r := Decode(data, off, 0);
            ValidLabels(r.labels) && At(data, off, EncodeName(r.labels)) && r.next == off + |EncodeName(r.labels)|
    decreases |data| - off
  {
    if data[off] != 0 {
      var mid := off + 1 + data[off];
      PointerFreeIsEncoding(data, mid);
      ConsAt(data, off, data[off + 1..mid], Decode(data, mid, 0).labels);
    }
  }

  lemma ConsAt(data: seq<Byte>, off: nat, text: Label, rest: seq<Label>)
    requires 1 <= |text| <= 63 && ValidLabels(rest)
    requires off + 1 + |text| <= |data| && data[off] == |text| && data[off + 1..off + 1 + |text|] == text
    requires At(data, off + 1 + |text|, EncodeName(rest))
    ensures ValidLabels([text] + rest) && EncodeName([text] + rest) == EncodeLabel(text) + EncodeName(rest)
    ensures At(data, off, EncodeName([text] + rest))
  {
    assert ([text] + rest)[1..] == rest;
    AtJoin(data, off, [|text|], text);
    AtJoin(data, off, EncodeLabel(text), EncodeName(rest));
  }
}
