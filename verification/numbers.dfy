/** The numeric leaf type. Its representation (an int64 or a float64) and its conversions live
    in code that is not part of this model, so the type is opaque and the conversions are
    handed to the accessors as parameters. */
module Numbers {
  import opened Errors

  /** A Number leaf; only equality is observable. */
  type Number(==)

  /** A Go float64; only equality is observable. */
  type Float64(==)

  /** A Go int64. */
  type Int64 = x: int | -0x8000_0000_0000_0000 <= x < 0x8000_0000_0000_0000

  /** Number's `Int64()` and `Float64()` methods, each of which may fail. */
  datatype Conversions = Conversions(toInt64: Number -> Result<Int64>, toFloat64: Number -> Result<Float64>)
}
