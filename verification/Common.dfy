/** Datatypes shared by every module of the gateway model. */
module Common {

  datatype Option<+T> = None | Some(value: T)

  datatype Result<+T, +E> = Ok(value: T) | Err(error: E)

  /** A Python float: rounding is not modelled, the special values are. */
  datatype Float = Finite(value: real) | Infinite(negative: bool) | NotANumber {

    /** The comparison `this >= other`; false whenever either side is not a number. */
    predicate AtLeast(other: Float) {
      match (this, other)
      case (NotANumber, _) => false
      case (_, NotANumber) => false
      case (Infinite(neg), Infinite(neg')) => !neg || neg'
      case (Infinite(neg), Finite(_)) => !neg
      case (Finite(_), Infinite(neg')) => neg'
      case (Finite(a), Finite(b)) => a >= b
    }
  }

  /** The integers SQLite stores; binding any other raises an overflow error. */
  predicate Fits64(n: int) {
    -0x8000_0000_0000_0000 <= n < 0x8000_0000_0000_0000
  }

  function Min(a: int, b: int): int {
    if a <= b then a else b
  }

  function Max(a: int, b: int): int {
    if a >= b then a else b
  }
}
