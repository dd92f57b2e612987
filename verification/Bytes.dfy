/** Machine integers and their little-endian images in memory. */
module Bytes {
  type Byte = x: int | 0 <= x < 0x100
  type U32 = x: int | 0 <= x < 0x1_0000_0000
  type U64 = x: int | 0 <= x < 0x1_0000_0000_0000_0000

  /** Data whose size is a 32-bit word. */
  type Data = s: seq<Byte> | |s| < 0x1_0000_0000

  const TWO_TO_THE_32 := 0x1_0000_0000
  const TWO_TO_THE_64 := 0x1_0000_0000_0000_0000

  /** `x` as a 32-bit unsigned word, for sums that wrap at most once. */
  function Wrap32(x: int): U32
    requires 0 <= x < 2 * TWO_TO_THE_32
  {
    if x < TWO_TO_THE_32 then x else x - TWO_TO_THE_32
  }

  /** `x` as a 64-bit unsigned word, for differences that wrap at most once. */
  function Wrap64(x: int): U64
    requires -TWO_TO_THE_64 <= x < TWO_TO_THE_64
  {
    if x >= 0 then x else x + TWO_TO_THE_64
  }

  function DecodeU32(s: seq<Byte>): (n: U32)
    requires |s| == 4
  {
    var b0: int, b1: int, b2: int, b3: int := s[0], s[1], s[2], s[3];
    b0 + 0x100 * (b1 + 0x100 * (b2 + 0x100 * b3))
  }

  /** The image of a 32-bit word reads back as that word. */
  function EncodeU32(n: U32): (s: seq<Byte>)
    ensures |s| == 4 && DecodeU32(s) == n
  {
    var n1: int := n / 0x100;
    var n2: int := n1 / 0x100;
    var n3: int := n2 / 0x100;
    [n % 0x100, n1 % 0x100, n2 % 0x100, n3]
  }

  /** Words are stored least significant byte first. */
  lemma WordFormat(n: U32)
    ensures EncodeU32(0x0403_0201) == [1, 2, 3, 4]
    ensures n < 0x100 ==> EncodeU32(n) == [n, 0, 0, 0]
  {
  }

  function DecodeU64(s: seq<Byte>): (n: U64)
    requires |s| == 8
  {
    var low: int, high: int := DecodeU32(s[..4]), DecodeU32(s[4..]);
    low + TWO_TO_THE_32 * high
  }

  /** The image of a 64-bit word reads back as that word. */
  function EncodeU64(n: U64): (s: seq<Byte>)
    ensures |s| == 8 && DecodeU64(s) == n
  {
    var low, high := EncodeU32(n % TWO_TO_THE_32), EncodeU32(n / TWO_TO_THE_32);
    assert (low + high)[..4] == low && (low + high)[4..] == high;
    low + high
  }
}
