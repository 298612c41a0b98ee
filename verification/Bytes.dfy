/** Octets, big-endian fields and separator-joined text, shared by every decoder. */
module Bytes {

  type Byte = b: int | 0 <= b < 256

  const DOT: Byte := 46

  /** The big-endian 16-bit field at offset `i`. */
  function U16(s: seq<Byte>, i: nat): (r: nat)
    requires i + 2 <= |s|
    ensures r < 0x1_0000
  {
    s[i] as int * 256 + s[i + 1]
  }

  /** The big-endian 32-bit field at offset `i`. */
  function U32(s: seq<Byte>, i: nat): (r: nat)
    requires i + 4 <= |s|
    ensures r < 0x1_0000_0000
  {
    U16(s, i) * 0x1_0000 + U16(s, i + 2)
  }

  /** The two octets of a 16-bit value, most significant first. */
  function PutU16(v: nat): (s: seq<Byte>)
    requires v < 0x1_0000
    ensures |s| == 2 && U16(s, 0) == v
  {
    [v / 256, v % 256]
  }

  /** The four octets of a 32-bit value, most significant first. */
  function PutU32(v: nat): (s: seq<Byte>)
    requires v < 0x1_0000_0000
    ensures |s| == 4 && U32(s, 0) == v
  {
    PutU16(v / 0x1_0000) + PutU16(v % 0x1_0000)
  }

  /** `parts` with one `sep` between neighbours. */
  function Join(parts: seq<seq<Byte>>, sep: Byte): seq<Byte> {
    if parts == [] then []
    else if |parts| == 1 then parts[0]
    else parts[0] + [sep] + Join(parts[1..], sep)
  }

  /** Appending one part appends a separator (unless it is the first part) and the part. */
  lemma {:induction false} JoinSnoc(parts: seq<seq<Byte>>, last: seq<Byte>, sep: Byte)
    ensures Join(parts + [last], sep) == if parts == [] then last else Join(parts, sep) + [sep] + last
  {
    if parts == [] {
      assert parts + [last] == [last];
    } else {
      JoinSnoc(parts[1..], last, sep);
      assert (parts + [last])[1..] == parts[1..] + [last];
      assert |parts| == 1 ==> parts == [parts[0]];
    }
  }
}
