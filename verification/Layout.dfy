/** Byte strings standing inside longer ones, and readers run over them. */
module Layout {
  import opened Wrappers
  import opened Bytes
  import opened Chains

  /** Always true; names the indices at which `At` is put to use. */
  ghost predicate Index(i: int) {
    true
  }

  /** `part` stands in `data` at offset `off`. */
  ghost predicate At(data: seq<Byte>, off: nat, part: seq<Byte>) {
    off + |part| <= |data| && forall i {:trigger Index(i)} | 0 <= i < |part| && Index(i) :: data[off + i] == part[i]
  }

  lemma AtOctet(data: seq<Byte>, off: nat, part: seq<Byte>, i: nat)
    requires At(data, off, part) && i < |part|
    ensures data[off + i] == part[i]
  {
    assert Index(i);
  }

  lemma AtSlice(data: seq<Byte>, off: nat, part: seq<Byte>)
    requires At(data, off, part)
    ensures data[off..off + |part|] == part
  {
    forall i | 0 <= i < |part|
      ensures data[off..off + |part|][i] == part[i]
    {
      AtOctet(data, off, part, i);
    }
  }

  lemma AtConcat(data: seq<Byte>, off: nat, a: seq<Byte>, b: seq<Byte>)
    requires At(data, off, a + b)
    ensures At(data, off, a) && At(data, off + |a|, b)
  {
    forall i | 0 <= i < |a| && Index(i)
      ensures data[off + i] == a[i]
    {
      assert (a + b)[i] == a[i];
    }
    forall i | 0 <= i < |b| && Index(i)
      ensures data[off + |a| + i] == b[i]
    {
      AtOctet(data, off, a + b, |a| + i);
    }
  }

  lemma AtJoin(data: seq<Byte>, off: nat, a: seq<Byte>, b: seq<Byte>)
    requires At(data, off, a) && At(data, off + |a|, b)
    ensures At(data, off, a + b)
  {
    forall i | 0 <= i < |a + b| && Index(i)
      ensures data[off + i] == (a + b)[i]
    {
      if i >= |a| {
        AtOctet(data, off + |a|, b, i - |a|);
      }
    }
  }

  lemma AtContext(pre: seq<Byte>, part: seq<Byte>, suf: seq<Byte>)
    ensures At(pre + part + suf, |pre|, part)
  {
  }

  lemma U16At(data: seq<Byte>, off: nat, v: nat)
    requires v < 0x1_0000 && At(data, off, PutU16(v))
    ensures U16(data, off) == v
  {
    AtOctet(data, off, PutU16(v), 0);
    AtOctet(data, off, PutU16(v), 1);
  }

  lemma U32At(data: seq<Byte>, off: nat, v: nat)
    requires v < 0x1_0000_0000 && At(data, off, PutU32(v))
    ensures U32(data, off) == v
  {
    AtConcat(data, off, PutU16(v / 0x1_0000), PutU16(v % 0x1_0000));
    U16At(data, off, v / 0x1_0000);
    U16At(data, off + 2, v % 0x1_0000);
  }

  /** The encodings of all items, one after another. */
  function EncodeAll<T>(enc: T -> seq<Byte>, xs: seq<T>): seq<Byte> {
    if xs == [] then [] else enc(xs[0]) + EncodeAll(enc, xs[1..])
  }

  function MapAll<T, R>(f: T -> R, xs: seq<T>): seq<R> {
    if xs == [] then [] else [f(xs[0])] + MapAll(f, xs[1..])
  }

  /** If a good item's encoding stands at `o`, the reader gives the item's meaning and end. */
  ghost predicate InvertsAt<T, R>(read: Reader<R>, enc: T -> seq<Byte>, mean: T -> R, good: T -> bool,
                                  data: seq<Byte>, x: T, o: nat)
  {
    good(x) && At(data, o, enc(x)) ==> read(o) == Some((mean(x), o + |enc(x)|))
  }

  ghost predicate Inverts<T(!new), R>(read: Reader<R>, enc: T -> seq<Byte>, mean: T -> R, good: T -> bool,
                                      data: seq<Byte>)
  {
    forall x, o: nat :: InvertsAt(read, enc, mean, good, data, x, o)
  }

  /** A reader that inverts single items inverts lists of them. */
  lemma {:induction false} ReadEncoded<T(!new), R>(read: Reader<R>, enc: T -> seq<Byte>, mean: T -> R, good: T -> bool,
                                                   data: seq<Byte>, off: nat, xs: seq<T>)
    requires Inverts(read, enc, mean, good, data)
    requires forall i | 0 <= i < |xs| :: good(xs[i])
    requires At(data, off, EncodeAll(enc, xs))
    ensures ReadUpTo(read, off, |xs|) == MapAll(mean, xs)
    decreases |xs|
  {
    if xs != [] {
      var next := off + |enc(xs[0])|;
      AtConcat(data, off, enc(xs[0]), EncodeAll(enc, xs[1..]));
      assert InvertsAt(read, enc, mean, good, data, xs[0], off) && good(xs[0]);
      ReadEncoded(read, enc, mean, good, data, next, xs[1..]);
      ReadCons(read, off, |xs|, mean(xs[0]), next);
    }
  }
}
