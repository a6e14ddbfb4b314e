/** Integer widths, byte buffers and the failures shared by every component. */
module Common {

  type byte = bv8
  type BytesBuffer = seq<byte>

  const TWO_16: int := 0x1_0000
  const TWO_32: int := 0x1_0000_0000
  const TWO_64: int := 0x1_0000_0000_0000_0000

  type uint16 = x: int | 0 <= x < 0x1_0000
  type uint32 = x: int | 0 <= x < 0x1_0000_0000
  type uint64 = x: int | 0 <= x < 0x1_0000_0000_0000_0000
  type int32 = x: int | -0x8000_0000 <= x < 0x8000_0000
  type int64 = x: int | -0x8000_0000_0000_0000 <= x < 0x8000_0000_0000_0000

  datatype Option<+T> = None | Some(value: T)

  /** What a C++ exception is to the server's handler: a std::runtime_error, which it
      catches, or any other exception, which goes past it. */
  datatype Failure = RuntimeError | OtherError

  datatype Result<+T> = Success(value: T) | Failure(error: Failure)

  /** extractFilename returns a name, returns nothing, or does not return: an exception other
      than the two it catches, or an assertion of the JSON library. */
  datatype Extraction = Extracted(name: Option<string>) | Raised

  /** The ++ of a 32-bit unsigned counter. */
  function Increment32(n: uint32): uint32 {
    if n == TWO_32 - 1 then 0 else n + 1
  }

  /** The ++ and -- of a 64-bit unsigned counter. */
  function Increment64(n: uint64): uint64 {
    if n == TWO_64 - 1 then 0 else n + 1
  }

  function Decrement64(n: uint64): uint64 {
    if n == 0 then TWO_64 - 1 else n - 1
  }

  function Zeros(n: nat): (s: BytesBuffer)
    ensures |s| == n
  {
    seq(n, _ => 0)
  }

  function Min(a: int, b: int): int {
    if a < b then a else b
  }
}
