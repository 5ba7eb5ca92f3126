/**
 The outcome types shared by the two operations of `squares.py`.

 The Python code signals failure by raising: an `AssertionError` when the
 weights and numbers differ in length, and a `ValueError` from `int()` when a
 token is not a decimal integer. Here both become values of `Error`, carried
 by `Result`, so that a failing call never produces a number.
 */
module Results {

  /** Python's `None` versus a supplied value (the optional weight list). */
  datatype Option<+T> = None | Some(value: T)

  /** The two ways a call can fail. */
  datatype Error =
    | LengthMismatch(weights: nat, numbers: nat)  // lengths of the two lists
    | ParseError(token: string)                   // the first token `int()` rejects

  /** Either the computed value or the failure; there is no partial result. */
  datatype Result<+T> = Ok(value: T) | Err(error: Error)
}
