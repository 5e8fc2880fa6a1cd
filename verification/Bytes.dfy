/** Byte strings and the big-endian integers the wire formats are built from. */
module Bytes {

  type byte = x: int | 0 <= x < 256

  const TWO_16: int := 0x1_0000
  const TWO_31: int := 0x8000_0000
  const TWO_32: int := 0x1_0000_0000

  type int32 = x: int | -0x8000_0000 <= x < 0x8000_0000

  /** binary.BigEndian.PutUint16 */
  function Put16(n: int): (b: seq<byte>)
    requires 0 <= n < TWO_16
    ensures |b| == 2
  {
    [n / 256, n % 256]
  }

  /** binary.BigEndian.Uint16 at an offset. */
  function Get16(raw: seq<byte>, off: int): (n: int)
    requires 0 <= off && off + 2 <= |raw|
    ensures 0 <= n < TWO_16
  {
    var high: int := raw[off];
    high * 256 + raw[off + 1]
  }

  /** binary.BigEndian.PutUint32 */
  function Put32(n: int): (b: seq<byte>)
    requires 0 <= n < TWO_32
    ensures |b| == 4
  {
    Put16(n / TWO_16) + Put16(n % TWO_16)
  }

  /** binary.BigEndian.Uint32 at an offset. */
  function Get32(raw: seq<byte>, off: int): (n: int)
    requires 0 <= off && off + 4 <= |raw|
    ensures 0 <= n < TWO_32
  {
    Get16(raw, off) * TWO_16 + Get16(raw, off + 2)
  }

  /** The unsigned reading of a two's complement int32, and back. */
  function Unsigned(n: int32): (u: int)
    ensures 0 <= u < TWO_32
  {
    if n < 0 then n + TWO_32 else n
  }

  function Signed(u: int): (n: int32)
    requires 0 <= u < TWO_32
    ensures Unsigned(n) == u
  {
    if u >= TWO_31 then u - TWO_32 else u
  }

  /** High byte first. */
  lemma BigEndian(n: int)
    requires 0 <= n < TWO_32
    ensures Put32(n) == [n / 0x1_0000 / 256, n / 0x1_0000 % 256, n % 0x1_0000 / 256, n % 256]
  {
    LowByte(n);
  }

  lemma LowByte(n: int)
    ensures n % 0x1_0000 % 256 == n % 256
  {
    assert n == 256 * (256 * (n / 0x1_0000)) + n % 0x1_0000;
  }

  /** Go's conversion of an int to int32. */
  function ToInt32(n: int): (r: int32)
    ensures (r - n) % TWO_32 == 0
  {
    (n + TWO_31) % TWO_32 - TWO_31
  }

  function PutI32(n: int32): (b: seq<byte>)
    ensures |b| == 4
  {
    Put32(Unsigned(n))
  }

  function GetI32(raw: seq<byte>, off: int): (n: int32)
    requires 0 <= off && off + 4 <= |raw|
  {
    Signed(Get32(raw, off))
  }

  /** `part` is what `raw` holds at `off`. */
  ghost predicate At(raw: seq<byte>, off: int, part: seq<byte>) {
    0 <= off && off + |part| <= |raw| && raw[off..off + |part|] == part
  }

  /** A part that is a concatenation is its two halves one after the other. */
  lemma AtSplit(raw: seq<byte>, off: int, a: seq<byte>, b: seq<byte>)
    requires At(raw, off, a + b)
    ensures At(raw, off, a) && At(raw, off + |a|, b)
  {
    assert raw[off..off + |a + b|][..|a|] == a;
    assert raw[off..off + |a + b|][|a|..] == b;
  }

  lemma Get16Put16(raw: seq<byte>, off: int, n: int)
    requires 0 <= n < TWO_16
    requires At(raw, off, Put16(n))
    ensures Get16(raw, off) == n
  {
    assert raw[off] == raw[off..off + 2][0];
    assert raw[off + 1] == raw[off..off + 2][1];
  }

  lemma Get32Put32(raw: seq<byte>, off: int, n: int)
    requires 0 <= n < TWO_32
    requires At(raw, off, Put32(n))
    ensures Get32(raw, off) == n
  {
    AtSplit(raw, off, Put16(n / TWO_16), Put16(n % TWO_16));
    Get16Put16(raw, off, n / TWO_16);
    Get16Put16(raw, off + 2, n % TWO_16);
  }

  lemma GetI32PutI32(raw: seq<byte>, off: int, n: int32)
    requires At(raw, off, PutI32(n))
    ensures GetI32(raw, off) == n
  {
    Get32Put32(raw, off, Unsigned(n));
  }

  /** The zero byte that pads an odd length to an even one. */
  function Padding(length: nat): (p: seq<byte>)
    ensures (length + |p|) % 2 == 0 && |p| <= 1
  {
    if length % 2 != 0 then [0] else []
  }

  function Padded(length: nat): (n: nat)
    ensures n == length + |Padding(length)|
  {
    if length % 2 != 0 then length + 1 else length
  }
}
