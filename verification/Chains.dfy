/** Items read one right after another from a byte string, for any reader. */
module Chains {
  import opened Wrappers

  /** Gives the item at an offset and the offset after it. */
  type Reader<!R> = nat -> Option<(R, nat)>

  /** `items[i]` stands at `offs[i]` and ends at `offs[i + 1]`. */
  ghost predicate Chain<R>(read: Reader<R>, offs: seq<nat>, items: seq<R>) {
    && |offs| == |items| + 1
    && forall i | 0 <= i < |items| :: read(offs[i]) == Some((items[i], offs[i + 1]))
  }

  /** Up to `n` consecutive items from `off`, stopping at the first that does not read. */
  function ReadUpTo<R>(read: Reader<R>, off: nat, n: nat): seq<R>
    decreases n
  {
    if n == 0 || read(off).None? then []
    else [read(off).value.0] + ReadUpTo(read, read(off).value.1, n - 1)
  }

  /** One more item read extends what has been collected and leaves one fewer to read. */
  lemma ReadStep<R>(read: Reader<R>, done: seq<R>, off: nat, n: nat)
    requires n > 0 && read(off).Some?
    ensures done + ReadUpTo(read, off, n) ==
            (done + [read(off).value.0]) + ReadUpTo(read, read(off).value.1, n - 1)
  {
  }

  lemma ReadCons<R>(read: Reader<R>, off: nat, n: nat, item: R, next: nat)
    requires n > 0 && read(off) == Some((item, next))
    ensures ReadUpTo(read, off, n) == [item] + ReadUpTo(read, next, n - 1)
  {
  }

  /** What is read is a chain that cannot be prolonged within `n` items. */
  lemma {:induction false} ReadIsMaximal<R>(read: Reader<R>, off: nat, n: nat) returns (offs: seq<nat>)
    ensures Chain(read, offs, ReadUpTo(read, off, n)) && offs[0] == off
    ensures |ReadUpTo(read, off, n)| <= n
    ensures |ReadUpTo(read, off, n)| < n ==> read(offs[|offs| - 1]).None?
    decreases n
  {
    if n == 0 || read(off).None? {
      offs := [off];
    } else {
      var rest := ReadIsMaximal(read, read(off).value.1, n - 1);
      offs := [off] + rest;
      var items := ReadUpTo(read, off, n);
      forall i | 0 <= i < |items|
        ensures read(offs[i]) == Some((items[i], offs[i + 1]))
      {
        if i > 0 {
          assert items[i] == ReadUpTo(read, read(off).value.1, n - 1)[i - 1];
        }
      }
    }
  }

  /** Every chain of at most `n` items is a prefix of what is read. */
  lemma {:induction false} ChainIsPrefix<R>(read: Reader<R>, offs: seq<nat>, items: seq<R>, n: nat)
    requires Chain(read, offs, items) && |items| <= n
    ensures items <= ReadUpTo(read, offs[0], n)
    decreases n
  {
    if items != [] {
      ChainIsPrefix(read, offs[1..], items[1..], n - 1);
      assert items == [items[0]] + items[1..];
    }
  }

  /** A chain that cannot be prolonged within `n` items is what is read. */
  lemma {:induction false} MaximalIsRead<R>(read: Reader<R>, offs: seq<nat>, items: seq<R>, n: nat)
    requires Chain(read, offs, items) && |items| <= n
    requires |items| < n ==> read(offs[|items|]).None?
    ensures items == ReadUpTo(read, offs[0], n)
    decreases n
  {
    if items != [] {
      MaximalIsRead(read, offs[1..], items[1..], n - 1);
      assert items == [items[0]] + items[1..];
    }
  }

  /** If every item takes at least `unit` octets and ends by `limit`, so does a chain. */
  lemma {:induction false} ChainExtent<R>(read: Reader<R>, offs: seq<nat>, items: seq<R>, unit: nat, limit: nat)
    requires Chain(read, offs, items)
    requires forall o: nat | read(o).Some? :: o + unit <= read(o).value.1 <= limit
    ensures offs[0] + unit * |items| <= offs[|items|]
    ensures items != [] ==> offs[|items|] <= limit
    decreases |items|
  {
    if items != [] {
      var last := |items| - 1;
      ChainExtent(read, offs[..|items|], items[..last], unit, limit);
      assert read(offs[last]) == Some((items[last], offs[|items|]));
      assert unit * |items| == unit * last + unit;
    }
  }
}
