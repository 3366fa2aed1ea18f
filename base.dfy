/** Small shared vocabulary: optional values, results of operations that can
    throw, and real-number helpers used throughout the model. */
module Base {

  datatype Option<+T> = None | Some(value: T)

  /** The outcome of a reducer call: a new state, or the error it throws. */
  datatype Result<+T> = Ok(value: T) | Thrown(message: string)

  function Max(a: real, b: real): (r: real)
    ensures r >= a && r >= b && (r == a || r == b)
  {
    if a >= b then a else b
  }

  function Min(a: real, b: real): (r: real)
    ensures r <= a && r <= b && (r == a || r == b)
  {
    if a <= b then a else b
  }
}
