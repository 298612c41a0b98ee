/** The Redis array decoder: a request split at CR LF, its arguments picked out and joined by spaces. */
module Redis {
  import opened Wrappers
  import opened Bytes

  const CR: Byte := 13
  const LF: Byte := 10
  const SPACE: Byte := 32
  const STAR: Byte := 42
  const DOLLAR: Byte := 36
  const CRLF: seq<Byte> := [CR, LF]

  // ---------------------------------------------------------------------
  // Splitting
  // ---------------------------------------------------------------------

  predicate CrlfAt(s: seq<Byte>, i: nat) {
    i + 2 <= |s| && s[i] == CR && s[i + 1] == LF
  }

  predicate NoCrlf(s: seq<Byte>) {
    forall i | 0 <= i < |s| :: !CrlfAt(s, i)
  }

  /** The first CR LF from `i` on, or the length. */
  function FindCrlf(s: seq<Byte>, i: nat): (r: nat)
    requires i <= |s|
    ensures i <= r <= |s|
    ensures r < |s| ==> CrlfAt(s, r)
    ensures forall j | i <= j < r :: !CrlfAt(s, j)
    decreases |s| - i
  {
    if i == |s| || CrlfAt(s, i) then i else FindCrlf(s, i + 1)
  }

  function Split(s: seq<Byte>): (parts: seq<seq<Byte>>)
    ensures |parts| >= 1
    decreases |s|
  {
    var k := FindCrlf(s, 0);
    if k == |s| then [s] else [s[..k]] + Split(s[k + 2..])
  }

  /** The parts with CR LF between neighbours. */
  function Glue(parts: seq<seq<Byte>>): seq<Byte>
    requires parts != []
  {
    if |parts| == 1 then parts[0] else parts[0] + CRLF + Glue(parts[1..])
  }

  /** Splitting loses nothing. */
  lemma {:induction false} SplitGlue(s: seq<Byte>)
    ensures Glue(Split(s)) == s
    decreases |s|
  {
    var k := FindCrlf(s, 0);
    if k < |s| {
      SplitGlue(s[k + 2..]);
      assert Split(s)[1..] == Split(s[k + 2..]);
      assert s == s[..k] + CRLF + s[k + 2..];
    }
  }

  lemma PrefixHasNoCrlf(s: seq<Byte>, k: nat)
    requires k <= |s| && forall j | 0 <= j < k :: !CrlfAt(s, j)
    ensures NoCrlf(s[..k])
  {
    forall i | 0 <= i < k
      ensures !CrlfAt(s[..k], i)
    {
      assert !CrlfAt(s, i);
    }
  }

  /** No part of a split holds a CR LF. */
  lemma {:induction false} PartsHaveNoCrlf(s: seq<Byte>, i: nat)
    requires i < |Split(s)|
    ensures NoCrlf(Split(s)[i])
    decreases |s|
  {
    var k := FindCrlf(s, 0);
    PrefixHasNoCrlf(s, k);
    if k == |s| {
      assert s[..k] == s;
    } else if i > 0 {
      PartsHaveNoCrlf(s[k + 2..], i - 1);
    }
  }

  lemma SplitFirst(p: seq<Byte>, rest: seq<Byte>)
    requires NoCrlf(p)
    ensures Split(p + CRLF + rest) == [p] + Split(rest)
  {
    var s := p + CRLF + rest;
    forall j | 0 <= j < |p|
      ensures !CrlfAt(s, j)
    {
      assert !CrlfAt(p, j);
    }
    assert CrlfAt(s, |p|);
    assert FindCrlf(s, 0) == |p|;
    assert s[..|p|] == p && s[|p| + 2..] == rest;
  }

  /** Conversely, parts without a CR LF are found again. */
  lemma {:induction false} GlueSplit(parts: seq<seq<Byte>>)
    requires parts != [] && forall i | 0 <= i < |parts| :: NoCrlf(parts[i])
    ensures Split(Glue(parts)) == parts
    decreases |parts|
  {
    if |parts| == 1 {
      assert FindCrlf(parts[0], 0) == |parts[0]|;
    } else {
      GlueSplit(parts[1..]);
      SplitFirst(parts[0], Glue(parts[1..]));
      assert parts == [parts[0]] + parts[1..];
    }
  }

  // ---------------------------------------------------------------------
  // Picking the arguments
  // ---------------------------------------------------------------------

  /** Every second part from `i` on, trimmed, empty ones left out; `trim` is the library's. */
  function Args(parts: seq<seq<Byte>>, i: nat, trim: seq<Byte> -> seq<Byte>): seq<seq<Byte>>
    decreases |parts| - i
  {
    if i >= |parts| then []
    else (if parts[i] == [] then [] else [trim(parts[i])]) + Args(parts, i + 2, trim)
  }

  lemma ArgsStep(done: seq<seq<Byte>>, parts: seq<seq<Byte>>, i: nat, trim: seq<Byte> -> seq<Byte>)
    requires i < |parts|
    ensures done + Args(parts, i, trim) ==
            (if parts[i] == [] then done else done + [trim(parts[i])]) + Args(parts, i + 2, trim)
  {
    assert parts[i] == [] ==> [] + Args(parts, i + 2, trim) == Args(parts, i + 2, trim);
  }

  datatype Command = Command(name: seq<Byte>, query: seq<Byte>)

  /** The event of an array payload; nothing is filled in when it has fewer than three parts. */
  function ArrayCommand(payload: seq<Byte>, trim: seq<Byte> -> seq<Byte>, upper: seq<Byte> -> seq<Byte>)
    : Option<Command>
  {
    var parts := Split(payload);
    if |parts| < 3 then None else Some(Command(upper(trim(parts[2])), Join(Args(parts, 2, trim), SPACE)))
  }

  method ParseArray(payload: seq<Byte>, trim: seq<Byte> -> seq<Byte>, upper: seq<Byte> -> seq<Byte>)
    returns (r: Option<Command>)
    ensures r == ArrayCommand(payload, trim, upper)
  {
    var parts := Split(payload);
    if |parts| < 3 {
      return None;
    }
    var name := upper(trim(parts[2]));
    var cmdParts: seq<seq<Byte>> := [];
    var i: nat := 2;
    ghost var whole := Args(parts, 2, trim);
    while i < |parts|
      invariant whole == cmdParts + Args(parts, i, trim)
    {
      ArgsStep(cmdParts, parts, i, trim);
      if |parts[i]| > 0 {
        cmdParts := cmdParts + [trim(parts[i])];
      }
      i := i + 2;
    }
    assert cmdParts + [] == cmdParts;
    r := Some(Command(name, Join(cmdParts, SPACE)));
  }

  // ---------------------------------------------------------------------
  // Encoding
  // ---------------------------------------------------------------------

  function Decimal(n: nat): (s: seq<Byte>)
    ensures forall i | 0 <= i < |s| :: 48 <= s[i] <= 57
  {
    (if n < 10 then [] else Decimal(n / 10)) + [48 + n % 10]
  }

  /** Length line and text of each argument. */
  function EncodeArgs(args: seq<seq<Byte>>): seq<Byte> {
    if args == [] then []
    else [DOLLAR] + Decimal(|args[0]|) + CRLF + (args[0] + CRLF + EncodeArgs(args[1..]))
  }

  function EncodeArray(args: seq<seq<Byte>>): seq<Byte> {
    [STAR] + Decimal(|args|) + CRLF + EncodeArgs(args)
  }

  lemma HeaderHasNoCrlf(mark: Byte, n: nat)
    requires mark != CR
    ensures NoCrlf([mark] + Decimal(n))
  {
    var s := [mark] + Decimal(n);
    assert forall i | 0 <= i < |s| :: s[i] != CR;
  }

  /** The parts of an encoded argument list: a header and an argument each time, and an empty part at the end. */
  function ArgParts(args: seq<seq<Byte>>): seq<seq<Byte>> {
    if args == [] then [[]] else [[DOLLAR] + Decimal(|args[0]|), args[0]] + ArgParts(args[1..])
  }

  lemma {:induction false} SplitArgs(args: seq<seq<Byte>>)
    requires forall i | 0 <= i < |args| :: NoCrlf(args[i])
    ensures Split(EncodeArgs(args)) == ArgParts(args)
    decreases |args|
  {
    if args != [] {
      var header, rest := [DOLLAR] + Decimal(|args[0]|), EncodeArgs(args[1..]);
      HeaderHasNoCrlf(DOLLAR, |args[0]|);
      SplitFirst(header, args[0] + CRLF + rest);
      SplitFirst(args[0], rest);
      SplitArgs(args[1..]);
      assert [header] + ([args[0]] + ArgParts(args[1..])) == [header, args[0]] + ArgParts(args[1..]);
    }
  }

  /** The nonempty arguments, trimmed. */
  function Trimmed(args: seq<seq<Byte>>, trim: seq<Byte> -> seq<Byte>): seq<seq<Byte>> {
    if args == [] then []
    else (if args[0] == [] then [] else [trim(args[0])]) + Trimmed(args[1..], trim)
  }

  lemma {:induction false} PickArgs(parts: seq<seq<Byte>>, i: nat, args: seq<seq<Byte>>, trim: seq<Byte> -> seq<Byte>)
    requires 1 <= i <= |parts| + 1 && parts[i - 1..] == ArgParts(args)
    ensures Args(parts, i, trim) == Trimmed(args, trim)
    decreases |args|
  {
    if args == [] {
      assert |parts| == i;
    } else {
      assert parts[i] == parts[i - 1..][1] == args[0];
      assert parts[i + 1..] == parts[i - 1..][2..] == ArgParts(args[1..]);
      PickArgs(parts, i + 2, args[1..], trim);
    }
  }

  lemma SplitArray(args: seq<seq<Byte>>)
    requires forall i | 0 <= i < |args| :: NoCrlf(args[i])
    ensures Split(EncodeArray(args)) == [[STAR] + Decimal(|args|)] + ArgParts(args)
  {
    HeaderHasNoCrlf(STAR, |args|);
    SplitFirst([STAR] + Decimal(|args|), EncodeArgs(args));
    SplitArgs(args);
  }

  lemma CommandOfParts(header: seq<Byte>, args: seq<seq<Byte>>, parts: seq<seq<Byte>>, trim: seq<Byte> -> seq<Byte>)
    requires parts == [header] + ArgParts(args)
    ensures |parts| >= 3 <==> args != []
    ensures args != [] ==> parts[2] == args[0]
    ensures Args(parts, 2, trim) == Trimmed(args, trim)
  {
    assert parts[1..] == ArgParts(args);
    PickArgs(parts, 2, args, trim);
    if args != [] {
      assert parts[2] == parts[1..][1] == args[0];
    }
  }

  /**
   * Every array of arguments without a CR LF parses to its arguments, empty
   * ones left out, trimmed and joined by spaces; an empty array to nothing.
   */
  lemma ArrayRoundTrip(args: seq<seq<Byte>>, trim: seq<Byte> -> seq<Byte>, upper: seq<Byte> -> seq<Byte>)
    requires forall i | 0 <= i < |args| :: NoCrlf(args[i])
    ensures ArrayCommand(EncodeArray(args), trim, upper) ==
            if args == [] then None
            else Some(Command(upper(trim(args[0])), Join(Trimmed(args, trim), SPACE)))
  {
    SplitArray(args);
    CommandOfParts([STAR] + Decimal(|args|), args, Split(EncodeArray(args)), trim);
  }

  lemma {:induction false} TrimmedIsSame(args: seq<seq<Byte>>, trim: seq<Byte> -> seq<Byte>)
    requires forall i | 0 <= i < |args| :: args[i] != [] && trim(args[i]) == args[i]
    ensures Trimmed(args, trim) == args
  {
    if args != [] {
      TrimmedIsSame(args[1..], trim);
    }
  }

  /** In particular nonempty arguments that trimming leaves alone come back joined by spaces. */
  lemma CleanArrayRoundTrip(args: seq<seq<Byte>>, trim: seq<Byte> -> seq<Byte>, upper: seq<Byte> -> seq<Byte>)
    requires args != []
    requires forall i | 0 <= i < |args| :: NoCrlf(args[i]) && args[i] != [] && trim(args[i]) == args[i]
    ensures ArrayCommand(EncodeArray(args), trim, upper) == Some(Command(upper(args[0]), Join(args, SPACE)))
  {
    ArrayRoundTrip(args, trim, upper);
    TrimmedIsSame(args, trim);
  }
}
