/** MySQL packets: length-encoded integers, framing, and the response and request decoders. */
module MySql {
  import opened Wrappers
  import opened Bytes
  import opened Layout

  const P8: nat := 0x100
  const P16: nat := 0x1_0000
  const P24: nat := 0x100_0000
  const P63: nat := 0x8000_0000_0000_0000
  const P64: nat := 0x1_0000_0000_0000_0000

  // ---------------------------------------------------------------------
  // Little-endian numbers
  // ---------------------------------------------------------------------

  /** The number whose octets stand in `data` from `off`, least significant first. */
  function Little(data: seq<Byte>, off: nat, n: nat): nat
    requires off + n <= |data|
    decreases n
  {
    if n == 0 then 0 else data[off] as int + 256 * Little(data, off + 1, n - 1)
  }

  function PutLittle(v: nat, n: nat): (s: seq<Byte>)
    ensures |s| == n
  {
    if n == 0 then [] else [v % 256] + PutLittle(v / 256, n - 1)
  }

  function Pow256(n: nat): nat {
    if n == 0 then 1 else 256 * Pow256(n - 1)
  }

  lemma {:induction false} LittleRoundTrip(data: seq<Byte>, off: nat, v: nat, n: nat)
    requires v < Pow256(n) && At(data, off, PutLittle(v, n))
    ensures Little(data, off, n) == v
    decreases n
  {
    if n > 0 {
      AtConcat(data, off, [v % 256], PutLittle(v / 256, n - 1));
      AtOctet(data, off, [v % 256], 0);
      LittleRoundTrip(data, off + 1, v / 256, n - 1);
    }
  }

  lemma Pow256Values()
    ensures Pow256(2) == P16 && Pow256(3) == P24 && Pow256(8) == P64
  {
    assert Pow256(4) == 0x1_0000_0000 && Pow256(6) == 0x1_0000_0000_0000;
  }

  // ---------------------------------------------------------------------
  // Length-encoded integers
  // ---------------------------------------------------------------------

  datatype LenInt = LenInt(next: nat, value: int, ok: bool)

  /** The value a 64-bit signed integer holds. */
  function AsInt64(v: nat): int {
    if v < P63 then v else v - P64
  }

  /** How many octets follow the first. */
  function Extra(first: Byte): nat {
    if first == 0xFC then 2 else if first == 0xFD then 3 else if first == 0xFE then 8 else 0
  }

  function ParseLenInt(data: seq<Byte>, off: nat): LenInt {
    if off >= |data| then LenInt(off, 0, false)
    else if data[off] == 0xFB then LenInt(off + 1, 0, true)
    else
      var n := Extra(data[off]);
      if n == 0 then LenInt(off + 1, data[off], true)
      else if off + 1 + n > |data| then LenInt(off, 0, false)
      else LenInt(off + 1 + n, AsInt64(Little(data, off + 1, n)), true)
  }

  /** The shortest encoding of `v`. */
  function EncodeLenInt(v: nat): (s: seq<Byte>)
    requires v < P64
    ensures |s| >= 1 && |s| == 1 + Extra(s[0]) && s[0] != 0xFB
  {
    if v < 0xFB then [v]
    else if v < P16 then [0xFC] + PutLittle(v, 2)
    else if v < P24 then [0xFD] + PutLittle(v, 3)
    else [0xFE] + PutLittle(v, 8)
  }

  lemma LongRoundTrip(data: seq<Byte>, off: nat, first: Byte, v: nat)
    requires Extra(first) > 0 && v < Pow256(Extra(first)) && At(data, off, [first] + PutLittle(v, Extra(first)))
    ensures ParseLenInt(data, off) == LenInt(off + 1 + Extra(first), AsInt64(v), true)
  {
    AtConcat(data, off, [first], PutLittle(v, Extra(first)));
    AtOctet(data, off, [first], 0);
    LittleRoundTrip(data, off + 1, v, Extra(first));
  }

  /** Wherever an encoding stands, parsing gives its value as a signed 64-bit integer and the offset after it. */
  lemma LenIntRoundTrip(data: seq<Byte>, off: nat, v: nat)
    requires v < P64 && At(data, off, EncodeLenInt(v))
    ensures ParseLenInt(data, off) == LenInt(off + |EncodeLenInt(v)|, AsInt64(v), true)
    ensures ParseLenInt(data, off).value == v <==> v < P63
  {
    Pow256Values();
    if v < 0xFB {
      AtOctet(data, off, [v], 0);
    } else if v < P16 {
      LongRoundTrip(data, off, 0xFC, v);
    } else if v < P24 {
      LongRoundTrip(data, off, 0xFD, v);
    } else {
      LongRoundTrip(data, off, 0xFE, v);
    }
  }

  /** The first value that does not survive. */
  lemma LargeLenIntIsNegative()
    ensures ParseLenInt(EncodeLenInt(P63), 0).value == -0x8000_0000_0000_0000
  {
    LenIntRoundTrip(EncodeLenInt(P63), 0, P63);
  }

  /** A strict nonempty prefix of an encoding, at the end of the data, is rejected where it starts. */
  lemma LenIntRejectsPrefix(pre: seq<Byte>, v: nat, k: nat)
    requires v < P64 && 0 < k < |EncodeLenInt(v)|
    ensures ParseLenInt(pre + EncodeLenInt(v)[..k], |pre|) == LenInt(|pre|, 0, false)
  {
    var data := pre + EncodeLenInt(v)[..k];
    assert data[|pre|] == EncodeLenInt(v)[0];
  }

  // ---------------------------------------------------------------------
  // Packets
  // ---------------------------------------------------------------------

  datatype Query = NoQuery | Sql(text: seq<Byte>) | Prepare(text: seq<Byte>) | Use(text: seq<Byte>)
                 | FieldList(text: seq<Byte>) | OtherCommand

  datatype Event =
    | Request(command: Byte, query: Query)
    | Response(affectedRows: int, errorCode: nat, errorMsg: seq<Byte>)

  const ELLIPSIS: seq<Byte> := [46, 46, 46]

  /** SQL text is kept up to 200 octets, then cut and marked. */
  function Sanitize(sql: seq<Byte>): seq<Byte> {
    if |sql| > 200 then sql[..200] + ELLIPSIS else sql
  }

  /** The body of a packet: three length octets, a sequence octet, then that many octets. */
  function Body(payload: seq<Byte>): Option<seq<Byte>> {
    if |payload| < 5 then None
    else
      var n := Little(payload, 0, 3);
      if n == 0 || n > |payload| - 4 then None else Some(payload[4..4 + n])
  }

  function ParseRequest(body: seq<Byte>): Event
    requires body != []
  {
    var text := body[1..];
    Request(body[0],
            if body[0] == 0x03 then (if text == [] then NoQuery else Sql(Sanitize(text)))
            else if body[0] == 0x16 then (if text == [] then NoQuery else Prepare(Sanitize(text)))
            else if body[0] == 0x02 then (if text == [] then NoQuery else Use(text))
            else if body[0] == 0x04 then (if text == [] then NoQuery else FieldList(text))
            else OtherCommand)
  }

  function ParseResponse(body: seq<Byte>): Event
    requires body != []
  {
    if body[0] == 0x00 then Response(if |body| > 1 then ParseLenInt(body, 1).value else 0, 0, [])
    else if body[0] == 0xFF then
      Response(0, if |body| >= 3 then Little(body, 1, 2) else 0, if |body| > 3 then body[3..] else [])
    else Response(0, 0, [])
  }

  function ParsePacket(payload: seq<Byte>, request: bool): Option<Event> {
    match Body(payload)
    case None => None
    case Some(body) => Some(if request then ParseRequest(body) else ParseResponse(body))
  }

  function Frame(id: Byte, body: seq<Byte>): seq<Byte> {
    PutLittle(|body|, 3) + ([id] + body)
  }

  /** A framed body is found again, whatever follows it; a frame cut short anywhere is refused. */
  lemma FrameRoundTrip(id: Byte, body: seq<Byte>, rest: seq<Byte>)
    requires 0 < |body| < P24
    ensures Body(Frame(id, body) + rest) == Some(body)
    ensures forall k | 0 <= k < |Frame(id, body)| :: Body(Frame(id, body)[..k]).None?
  {
    Pow256Values();
    var data, head := Frame(id, body) + rest, PutLittle(|body|, 3);
    AtContext([], head, [id] + body + rest);
    assert data == [] + head + ([id] + body + rest);
    LittleRoundTrip(data, 0, |body|, 3);
    assert data[4..4 + |body|] == body;
    forall k | 0 <= k < |Frame(id, body)|
      ensures Body(Frame(id, body)[..k]).None?
    {
      CutFrame(id, body, k);
    }
  }

  lemma CutFrame(id: Byte, body: seq<Byte>, k: nat)
    requires 0 < |body| < P24 && k < |Frame(id, body)|
    ensures Body(Frame(id, body)[..k]).None?
  {
    Pow256Values();
    if k >= 5 {
      var data, head := Frame(id, body)[..k], PutLittle(|body|, 3);
      assert data == [] + head + ([id] + body)[..k - 3];
      AtContext([], head, ([id] + body)[..k - 3]);
      LittleRoundTrip(data, 0, |body|, 3);
    }
  }

  /** An OK response carrying `v` rows reports `v` rows exactly when `v` fits a signed 64-bit integer. */
  lemma OkRoundTrip(id: Byte, v: nat, tail: seq<Byte>, rest: seq<Byte>)
    requires v < P64 && 1 + |EncodeLenInt(v)| + |tail| < P24
    ensures var payload := Frame(id, [0x00] + EncodeLenInt(v) + tail) + rest;
            && ParsePacket(payload, false) == Some(Response(AsInt64(v), 0, []))
            && (ParsePacket(payload, false).value.affectedRows == v <==> v < P63)
  {
    var body := [0x00] + EncodeLenInt(v) + tail;
    FrameRoundTrip(id, body, rest);
    AtContext([0x00], EncodeLenInt(v), tail);
    LenIntRoundTrip(body, 1, v);
  }

  /** An error response gives back its code and message. */
  lemma ErrorRoundTrip(id: Byte, code: nat, msg: seq<Byte>, rest: seq<Byte>)
    requires code < P16 && 3 + |msg| < P24
    ensures ParsePacket(Frame(id, [0xFF] + PutLittle(code, 2) + msg) + rest, false) == Some(Response(0, code, msg))
  {
    Pow256Values();
    var body := [0xFF] + PutLittle(code, 2) + msg;
    FrameRoundTrip(id, body, rest);
    AtContext([0xFF], PutLittle(code, 2), msg);
    LittleRoundTrip(body, 1, code, 2);
    assert |msg| > 0 ==> body[3..] == msg;
  }

  /** A query is reported verbatim exactly when it has at most 200 octets, or 203 that end in the mark. */
  lemma QueryRoundTrip(id: Byte, sql: seq<Byte>, rest: seq<Byte>)
    requires 0 < |sql| && 1 + |sql| < P24
    ensures var r := ParsePacket(Frame(id, [0x03] + sql) + rest, true);
            && r == Some(Request(0x03, Sql(Sanitize(sql))))
            && (r == Some(Request(0x03, Sql(sql))) <==> |sql| <= 200 || (|sql| == 203 && sql[200..] == ELLIPSIS))
  {
    FrameRoundTrip(id, [0x03] + sql, rest);
    assert ([0x03] + sql)[1..] == sql;
    SanitizeFixes(sql);
  }

  lemma SanitizeFixes(sql: seq<Byte>)
    ensures Sanitize(sql) == sql <==> |sql| <= 200 || (|sql| == 203 && sql[200..] == ELLIPSIS)
  {
    if |sql| > 200 {
      assert |Sanitize(sql)| == 203 && Sanitize(sql)[200..] == ELLIPSIS;
      assert sql == sql[..200] + sql[200..];
    }
  }

  /** What is kept of a text: all of it, or its first 200 octets and three dots. */
  function Shown(text: seq<Byte>): seq<Byte> {
    if |text| <= 200 then text else text[..200] + [46, 46, 46]
  }

  /** What a request with this command and text is reported as. */
  lemma RequestMeans(id: Byte, command: Byte, text: seq<Byte>, rest: seq<Byte>)
    requires 1 + |text| < P24
    ensures ParsePacket(Frame(id, [command] + text) + rest, true) ==
            Some(Request(command,
                         if command !in {0x02, 0x03, 0x04, 0x16} then OtherCommand
                         else if text == [] then NoQuery
                         else if command == 0x03 then Sql(Shown(text))
                         else if command == 0x16 then Prepare(Shown(text))
                         else if command == 0x02 then Use(text)
                         else FieldList(text)))
  {
    FrameRoundTrip(id, [command] + text, rest);
    assert ([command] + text)[1..] == text;
  }

  /** A response that is neither OK nor an error reports neither rows nor a code. */
  lemma OtherResponse(id: Byte, status: Byte, text: seq<Byte>, rest: seq<Byte>)
    requires 1 + |text| < P24 && status != 0x00 && status != 0xFF
    ensures ParsePacket(Frame(id, [status] + text) + rest, false) == Some(Response(0, 0, []))
  {
    FrameRoundTrip(id, [status] + text, rest);
  }

  /** Cut responses: an OK without its rows, and an error without its code or its message. */
  lemma ShortResponses(id: Byte, lo: Byte, hi: Byte, rest: seq<Byte>)
    ensures ParsePacket(Frame(id, [0x00]) + rest, false) == Some(Response(0, 0, []))
    ensures ParsePacket(Frame(id, [0xFF]) + rest, false) == Some(Response(0, 0, []))
    ensures ParsePacket(Frame(id, [0xFF, lo]) + rest, false) == Some(Response(0, 0, []))
    ensures ParsePacket(Frame(id, [0xFF, lo, hi]) + rest, false) == Some(Response(0, lo + 256 * hi as int, []))
  {
    FrameRoundTrip(id, [0x00], rest);
    FrameRoundTrip(id, [0xFF], rest);
    FrameRoundTrip(id, [0xFF, lo], rest);
    FrameRoundTrip(id, [0xFF, lo, hi], rest);
    assert Little([0xFF, lo, hi], 1, 2) == lo + 256 * hi as int;
  }

  /** How the first octet decides what is read, minimal encoding or not. */
  lemma LenIntCases(data: seq<Byte>, off: nat)
    ensures off >= |data| ==> ParseLenInt(data, off) == LenInt(off, 0, false)
    ensures off < |data| && data[off] == 0xFB ==> ParseLenInt(data, off) == LenInt(off + 1, 0, true)
    ensures off < |data| && (data[off] < 0xFB || data[off] == 0xFF) ==>
              ParseLenInt(data, off) == LenInt(off + 1, data[off], true)
    ensures off < |data| && 0xFC <= data[off] <= 0xFE ==>
              var n := if data[off] == 0xFC then 2 else if data[off] == 0xFD then 3 else 8;
              ParseLenInt(data, off) ==
              if off + 1 + n > |data| then LenInt(off, 0, false)
              else LenInt(off + 1 + n, AsInt64(Little(data, off + 1, n)), true)
  {
  }

  /** The body is the announced number of octets after the four of the header, if there are as many and any. */
  lemma BodyIff(payload: seq<Byte>, body: seq<Byte>)
    ensures Body(payload) == Some(body) <==>
            && |body| > 0 && |payload| >= 4 + |body|
            && payload[0] + 256 * (payload[1] as int + 256 * payload[2] as int) == |body|
            && payload[4..4 + |body|] == body
  {
    if |payload| >= 5 {
      ThreeOctets(payload);
    }
  }

  lemma ThreeOctets(payload: seq<Byte>)
    requires |payload| >= 3
    ensures Little(payload, 0, 3) == payload[0] + 256 * (payload[1] as int + 256 * payload[2] as int)
  {
    assert Little(payload, 2, 1) == payload[2];
    assert Little(payload, 1, 2) == payload[1] + 256 * payload[2] as int;
  }
}
