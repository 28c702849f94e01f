/** Bytes, machine words and the big- and little-endian byte helpers of the wire formats. */
module Bytes {

  datatype Option<+T> = None | Some(value: T)

  type byte = x: int | 0 <= x < 0x100
  type uint16 = x: int | 0 <= x < 0x1_0000
  type uint24 = x: int | 0 <= x < 0x100_0000
  type uint32 = x: int | 0 <= x < 0x1_0000_0000
  type uint64 = x: int | 0 <= x < 0x1_0000_0000_0000_0000

  type bytes = seq<byte>

  function Min(a: int, b: int): int {
    if a <= b then a else b
  }

  lemma Associative(a: bytes, b: bytes, c: bytes)
    ensures (a + b) + c == a + (b + c)
  {
  }

  // ---- big-endian and little-endian words ----

  function PutBE16(v: uint16): (b: bytes)
    ensures |b| == 2
  {
    [v / 0x100, v % 0x100]
  }

  function BE16(b: bytes): uint16
    requires |b| == 2
  {
    b[0] as int * 0x100 + b[1]
  }

  function PutBE24(v: uint24): (b: bytes)
    ensures |b| == 3
  {
    [v / 0x100 / 0x100, v / 0x100 % 0x100, v % 0x100]
  }

  function BE24(b: bytes): uint24
    requires |b| == 3
  {
    b[0] as int * 0x1_0000 + b[1] as int * 0x100 + b[2]
  }

  function PutBE32(v: uint32): (b: bytes)
    ensures |b| == 4
  {
    [v / 0x100 / 0x100 / 0x100, v / 0x100 / 0x100 % 0x100, v / 0x100 % 0x100, v % 0x100]
  }

  function BE32(b: bytes): uint32
    requires |b| == 4
  {
    b[0] as int * 0x100_0000 + b[1] as int * 0x1_0000 + b[2] as int * 0x100 + b[3]
  }

  function PutLE32(v: uint32): (b: bytes)
    ensures |b| == 4
  {
    [v % 0x100, v / 0x100 % 0x100, v / 0x100 / 0x100 % 0x100, v / 0x100 / 0x100 / 0x100]
  }

  function LE32(b: bytes): uint32
    requires |b| == 4
  {
    b[3] as int * 0x100_0000 + b[2] as int * 0x1_0000 + b[1] as int * 0x100 + b[0]
  }

  function PutBE64(v: uint64): (b: bytes)
    ensures |b| == 8
  {
    PutBE32(v / 0x1_0000_0000) + PutBE32(v % 0x1_0000_0000)
  }

  function BE64(b: bytes): uint64
    requires |b| == 8
  {
    BE32(b[..4]) as int * 0x1_0000_0000 + BE32(b[4..])
  }

  lemma BE16RoundTrip(v: uint16)
    ensures BE16(PutBE16(v)) == v
  {
  }

  lemma BE24RoundTrip(v: uint24)
    ensures BE24(PutBE24(v)) == v
  {
  }

  lemma BE32RoundTrip(v: uint32)
    ensures BE32(PutBE32(v)) == v
  {
  }

  lemma LE32RoundTrip(v: uint32)
    ensures LE32(PutLE32(v)) == v
  {
  }

  lemma BE64RoundTrip(v: uint64)
    ensures BE64(PutBE64(v)) == v
  {
    var hi, lo := PutBE32(v / 0x1_0000_0000), PutBE32(v % 0x1_0000_0000);
    BE32RoundTrip(v / 0x1_0000_0000);
    BE32RoundTrip(v % 0x1_0000_0000);
    assert PutBE64(v)[..4] == hi && PutBE64(v)[4..] == lo;
  }

  // ---- text ----

  /** The bytes of a program literal, or of any text outside multi-byte encodings. */
  function Ascii(s: string): (b: bytes)
    ensures |b| == |s|
  {
    seq(|s|, i requires 0 <= i < |s| => s[i] as int % 0x100)
  }
}
