/** Fixed-width unsigned values, octets and endpoints shared by every layer of the stack. */
module Base {

  const TWO16: int := 0x1_0000
  const TWO31: int := 0x8000_0000
  const TWO32: int := 0x1_0000_0000

  type byte = x: int | 0 <= x < 0x100
  type u16 = x: int | 0 <= x < 0x1_0000
  type u32 = x: int | 0 <= x < 0x1_0000_0000

  /** What storing `x` in a 16-bit unsigned variable keeps. */
  function U16(x: int): u16 { x % 0x1_0000 }

  /** What storing `x` in a 32-bit unsigned variable keeps. */
  function U32(x: int): u32 { x % 0x1_0000_0000 }

  /** Wrapping an intermediate sum changes nothing. */
  lemma WrapAdds(x: int, y: int)
    ensures U32(U32(x) + y) == U32(x + y)
  {
  }

  function Min(x: int, y: int): int { if x < y then x else y }

  function Max(x: int, y: int): int { if x > y then x else y }

  function Pow2(n: nat): (r: nat)
    ensures r > 0
  {
    if n == 0 then 1 else 2 * Pow2(n - 1)
  }

  datatype Option<+T> = None | Some(value: T)

  /** An IP address and a port, as stored (the port in network byte order). */
  datatype Endpoint = Endpoint(addr: u32, port: u16)

  type HwAddr = a: seq<byte> | |a| == 6 witness [0, 0, 0, 0, 0, 0]

  const IP_ADDR_ANY: u32 := 0
  const IP_ADDR_BROADCAST: u32 := 0xffff_ffff
  const ANY_ENDPOINT := Endpoint(0, 0)
}
