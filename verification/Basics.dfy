/** Types shared by every module. */
module Basics {
  datatype Option<+T> = None | Some(value: T)

  /** Instants and durations are counted in nanoseconds on one clock; Go's zero time is None. */
  type Time = int
  type Duration = int

  const TWO63: int := 0x8000_0000_0000_0000
  const TWO64: int := 0x1_0000_0000_0000_0000

  /** The value a Go `int` or `int64` keeps of x. */
  function Wrap(x: int): (w: int)
    ensures -TWO63 <= w < TWO63
    ensures w == x <==> -TWO63 <= x < TWO63
  {
    (x + TWO63) % TWO64 - TWO63
  }

  /** Go's integer division, which truncates toward zero. */
  function TruncatedQuotient(a: int, b: int): int
    requires b > 0
  {
    if a >= 0 then a / b else -((-a) / b)
  }
}
