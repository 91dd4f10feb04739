/** Octets, network byte order and the result types shared by both wire formats. */
module Bytes {

  type byte = b: int | 0 <= b < 0x100

  /** An IPv4 address as the number its four octets spell. */
  type Address = a: int | 0 <= a < 0x1_0000_0000

  datatype Option<+T> = None | Some(value: T)

  datatype Result<+T, +E> = Ok(value: T) | Err(error: E)

  /** Big-endian 16-bit field at the front of two octets. */
  function U16(hi: byte, lo: byte): (n: int)
    ensures 0 <= n < 0x1_0000
  {
    hi * 0x100 + lo
  }

  function PutU16(n: int): (r: seq<byte>)
    requires 0 <= n < 0x1_0000
    ensures |r| == 2 && U16(r[0], r[1]) == n
  {
    [n / 0x100, n % 0x100]
  }

  lemma U16Injective(hi: byte, lo: byte)
    ensures PutU16(U16(hi, lo)) == [hi, lo]
  {
  }

  function U32(a: byte, b: byte, c: byte, d: byte): (n: int)
    ensures 0 <= n < 0x1_0000_0000
  {
    U16(a, b) * 0x1_0000 + U16(c, d)
  }

  /** The number that four octets spell in network order, the first being the highest. */
  function InOrder(a: int, b: int, c: int, d: int): int {
    0x100_0000 * a + 0x1_0000 * b + 0x100 * c + d
  }

  function PutU32(n: int): (r: seq<byte>)
    requires 0 <= n < 0x1_0000_0000
    ensures |r| == 4 && U32(r[0], r[1], r[2], r[3]) == n
  {
    PutU16(n / 0x1_0000) + PutU16(n % 0x1_0000)
  }

  lemma U32Injective(a: byte, b: byte, c: byte, d: byte)
    ensures PutU32(U32(a, b, c, d)) == [a, b, c, d]
  {
    U16Injective(a, b);
    U16Injective(c, d);
    assert U32(a, b, c, d) / 0x1_0000 == U16(a, b);
    assert U32(a, b, c, d) % 0x1_0000 == U16(c, d);
  }
}
