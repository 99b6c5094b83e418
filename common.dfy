/** Value types shared by the table, the cell references and the CSV codec. */
module Common {

  /** A possibly absent value; `None` stands for Java's `null`. */
  datatype Option<+T> = None | Some(value: T)

  /** The exceptions the library throws, as values. */
  datatype Error =
    | IndexOutOfBounds
    | IllegalArgument(message: string)
    | NullPointer
    | NumberFormat

  /** The result of a query that may throw. */
  datatype Result<+T> = Ok(value: T) | Err(error: Error)

  /** The result of a mutator that returns nothing but may throw. */
  datatype Outcome = Done | Failed(error: Error)

  function Max(a: int, b: int): (m: int)
    ensures m >= a && m >= b && (m == a || m == b)
  {
    if a < b then b else a
  }
}
