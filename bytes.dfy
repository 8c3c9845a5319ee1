/**
 * Machine integers and the 4-byte length prefix of the wire format.
 *
 * The client's `ByteUtil.toByteArray(n, 4)` and `ByteUtil.toInt(bytes)` are not
 * part of this model; the protocol fixes the prefix as a 4-byte big-endian
 * integer, so both are defined here concretely and their round trips are proved
 * rather than assumed.
 */
module Bytes {

  /** One octet on the wire (Java's signed byte, read as its unsigned bit pattern). */
  type Byte = b: int | 0 <= b < 0x100

  /** Java's `int`. */
  newtype int32 = x: int | -0x8000_0000 <= x < 0x8000_0000

  /** `Integer.MAX_VALUE`. */
  const IntMax: int32 := 0x7fff_ffff

  function Min(a: int, b: int): int { if a <= b then a else b }

  function Max(a: int, b: int): int { if a <= b then b else a }

  /** The 32-bit pattern of `n` read as an unsigned number. */
  function Unsigned(n: int32): (u: int)
    ensures 0 <= u < 0x1_0000_0000
    ensures n >= 0 ==> u == n as int
  {
    if n < 0 then n as int + 0x1_0000_0000 else n as int
  }

  /** The 4 bytes of `n`, most significant first (`toByteArray(n, 4)`). */
  function ToByteArray(n: int32): (r: seq<Byte>)
    ensures |r| == 4
  {
    var u := Unsigned(n);
    [u / 0x100_0000, (u / 0x1_0000) % 0x100, (u / 0x100) % 0x100, u % 0x100]
  }

  /** The unsigned value of 4 bytes, most significant first. */
  function BigEndian(b: seq<Byte>): (u: int)
    requires |b| == 4
    ensures 0 <= u < 0x1_0000_0000
  {
    (b[0] as int) * 0x100_0000 + (b[1] as int) * 0x1_0000 + (b[2] as int) * 0x100 + b[3] as int
  }

  /** The Java `int` whose bit pattern is the 4 bytes `b` (`toInt(b)`). */
  function ToInt(b: seq<Byte>): (n: int32)
    requires |b| == 4
    ensures Unsigned(n) == BigEndian(b)
    ensures b[0] < 0x80 <==> n >= 0
  {
    var u := BigEndian(b);
    if u >= 0x8000_0000 then (u - 0x1_0000_0000) as int32 else u as int32
  }

  /** Splitting an unsigned 32-bit value into its four digits base 256 and putting them back gives it again. */
  lemma DigitsRecombine(u: int)
    requires 0 <= u < 0x1_0000_0000
    ensures (u / 0x100_0000) * 0x100_0000 + ((u / 0x1_0000) % 0x100) * 0x1_0000
            + ((u / 0x100) % 0x100) * 0x100 + u % 0x100 == u
  {
    var q1 := u / 0x100;
    var q2 := q1 / 0x100;
    var q3 := q2 / 0x100;
    assert u == q1 * 0x100 + u % 0x100;
    assert q1 == q2 * 0x100 + q1 % 0x100;
    assert q2 == q3 * 0x100 + q2 % 0x100;
    assert q2 == u / 0x1_0000;
    assert q3 == u / 0x100_0000;
  }

  /** The prefix written for any Java `int` decodes to that `int`. */
  lemma IntRoundTrip(n: int32)
    ensures ToInt(ToByteArray(n)) == n
  {
    DigitsRecombine(Unsigned(n));
  }

  /** Every 4-byte header is the encoding of the `int` it decodes to, so decoding loses nothing. */
  lemma BytesRoundTrip(b: seq<Byte>)
    requires |b| == 4
    ensures ToByteArray(ToInt(b)) == b
  {
    var u := BigEndian(b);
    var low := (b[1] as int) * 0x1_0000 + (b[2] as int) * 0x100 + b[3] as int;
    assert 0 <= low < 0x100_0000;
    assert u / 0x100_0000 == b[0];
    assert u / 0x1_0000 == (b[0] as int) * 0x100 + b[1] as int;
    assert u / 0x100 == (b[0] as int) * 0x1_0000 + (b[1] as int) * 0x100 + b[2] as int;
  }
}
