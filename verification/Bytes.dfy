/** Bytes, text in bytes, and 32-bit little-endian integers. */
module Bytes {

  type Byte = x: int | 0 <= x < 256

  const U32_LIMIT: int := 0x1_0000_0000

  predicate FitsU32(n: int) { 0 <= n < U32_LIMIT }

  function U32(n: int): (r: seq<Byte>)
    requires FitsU32(n)
    ensures |r| == 4
  {
    [n % 256, n / 256 % 256, n / 65536 % 256, n / 16777216]
  }

  function FromU32(b: seq<Byte>): (n: int)
    requires |b| == 4
    ensures FitsU32(n)
  {
    var b0: int, b1: int, b2: int, b3: int := b[0], b[1], b[2], b[3];
    b0 + 256 * b1 + 65536 * b2 + 16777216 * b3
  }

  lemma U32RoundTrip(n: int)
    requires FitsU32(n)
    ensures FromU32(U32(n)) == n
  {
    assert n / 65536 == n / 256 / 256 && n / 16777216 == n / 65536 / 256;
  }

  function Ascii(s: string): (b: seq<Byte>)
    requires forall i :: 0 <= i < |s| ==> s[i] < '\U{80}'
    ensures |b| == |s| && forall i :: 0 <= i < |b| ==> b[i] == s[i] as int
  {
    seq(|s|, i requires 0 <= i < |s| => s[i] as int)
  }

  /** Bytes read as characters, one for one. */
  function Chars(b: seq<Byte>): (s: string)
    ensures |s| == |b| && forall i :: 0 <= i < |s| ==> s[i] == b[i] as char
  {
    seq(|b|, i requires 0 <= i < |b| => b[i] as char)
  }

  /** The least significant byte comes first. */
  lemma LittleEndian(b: seq<Byte>)
    requires |b| == 4
    ensures FromU32(b) == (b[0] as int) + 0x100 * (b[1] as int) + 0x10000 * (b[2] as int) + 0x1000000 * (b[3] as int)
    ensures U32(FromU32(b)) == b
  {
    var b0: int, b1: int, b2: int, b3: int := b[0], b[1], b[2], b[3];
    var q2 := b2 + 256 * b3;
    var q1 := b1 + 256 * q2;
    var n := FromU32(b);
    assert n == b0 + 256 * q1;
    LowByte(b0, q1);
    LowByte(b1, q2);
    LowByte(b2, b3);
    Quotients(n);
  }

  lemma LowByte(low: int, high: int)
    requires 0 <= low < 256
    ensures (low + 256 * high) % 256 == low && (low + 256 * high) / 256 == high
  {
  }

  lemma Quotients(n: int)
    ensures n / 65536 == n / 256 / 256 && n / 16777216 == n / 256 / 256 / 256
  {
  }
}
