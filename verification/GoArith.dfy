/** The integer arithmetic of the Go program, where it differs from Dafny's. */
module GoArith {
  const SECOND: int := 1_000_000_000
  const MAX_U32: int := 0xFFFF_FFFF
  const MAX_INT64: int := 0x7FFF_FFFF_FFFF_FFFF

  type U32 = x: int | 0 <= x <= 0xFFFF_FFFF

  datatype Option<+T> = None | Some(value: T)

  /** Go's division truncates toward zero; Dafny's is Euclidean. */
  function TruncDiv(a: int, b: int): int
    requires b > 0
  {
    if a >= 0 then a / b else -((-a) / b)
  }

  /** Conversion of a Go integer to uint32. */
  function ToU32(x: int): U32 {
    x % 0x1_0000_0000
  }

  /** Two's complement wrap-around of a 64-bit result. */
  function Wrap64(x: int): int {
    (x + 0x8000_0000_0000_0000) % 0x1_0000_0000_0000_0000 - 0x8000_0000_0000_0000
  }

  predicate InInt64(x: int) {
    -0x8000_0000_0000_0000 <= x <= MAX_INT64
  }

  function Min(a: int, b: int): int {
    if a < b then a else b
  }
}
