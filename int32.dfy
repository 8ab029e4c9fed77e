/** The C `int` of the demo programs: a 32-bit two's-complement integer. */
module Int32 {
  const MinInt32: int := -0x8000_0000
  const MaxInt32: int := 0x7FFF_FFFF

  /** Every value a C `int` can hold. */
  type Int32 = x: int | MinInt32 <= x <= MaxInt32

  /** The two's-complement bit pattern of an `int`. */
  function Bits(x: Int32): (b: bv32)
  {
    if x >= 0 then x as bv32 else (x + 0x1_0000_0000) as bv32
  }
}

/** What a run under the symbolic-execution engine ends with. */
module Klee {
  import opened Int32

  /** Either the code returns normally with a value, or a `klee_assert`
    * whose condition is false stops the path and is reported as an error. */
  datatype Outcome = Returned(value: Int32) | AssertionFailed
}
