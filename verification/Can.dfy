/** Shared vocabulary of the stack: bytes, CAN frames and the reserved addresses. */
module Can {

  type byte = x: int | 0 <= x < 256

  /** The data field of a classic CAN frame: always eight bytes of storage. */
  type Data8 = d: seq<byte> | |d| == 8 witness [0, 0, 0, 0, 0, 0, 0, 0]

  /** A frame with its 29-bit identifier already split into the fields the stack routes on. */
  datatype Frame = Frame(pgn: nat, source: byte, destination: byte, priority: nat, data: Data8, length: nat)

  datatype Option<+T> = None | Some(value: T)

  /** Answer of a bounded container: a rejected item is handed back. */
  datatype PushResult<+T> = Pushed | Full(item: T)

  const NULL_ADDRESS: byte := 0xFE
  const BROADCAST_ADDRESS: byte := 0xFF
  const MAX_ADDRESS: byte := 0xFD

  const U32_MAX: nat := 0xFFFF_FFFF

  /** `u32::saturating_add`. */
  function SaturatingAdd32(a: nat, b: nat): (r: nat)
    requires a <= U32_MAX
    ensures r <= U32_MAX
  {
    if a + b > U32_MAX then U32_MAX else a + b
  }

  function Min(a: int, b: int): (r: int)
    ensures r <= a && r <= b && (r == a || r == b)
  {
    if a <= b then a else b
  }
}
