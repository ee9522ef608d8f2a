/** Values shared by every model in this project: optional values and the
    outcome of a Go operation that may panic at run time. */
module Runtime {

  datatype Option<+T> = None | Some(value: T)

  /** The run-time panics the modelled programs can raise. */
  datatype RuntimeError =
    | MakeLenOutOfRange        // make([]T, len, cap) with len < 0
    | MakeCapOutOfRange        // make([]T, len, cap) with len > cap
    | SliceBoundsOutOfRange    // a slice expression whose indices are not ordered within range
    | IndexOutOfRange          // s[i] with i outside [0, len(s))
    | IncomparableTypes        // == on interfaces whose dynamic type is not comparable
    | TypeAssertionFailed      // x.(T) when x does not hold a T

  /** Either the value an expression produces or the panic it raises. */
  datatype Outcome<+T> = Ok(value: T) | Panic(error: RuntimeError)
}
