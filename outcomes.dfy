/** Small failure-carrying datatypes shared by the model. */
module Outcomes {

  /** A value that may be absent (Python's `None`). */
  datatype Option<+T> = None | Some(value: T)

  /** The exceptions the modelled Python code can raise. */
  datatype PyError =
    | KeyError          // a missing dictionary key
    | ValueError        // `list.remove` of an absent value, `random.sample` too large
    | IndexError        // `random.choice` of an empty list, an index out of range
    | NameError         // a local variable read before any assignment
    | ZeroDivisionError // a division by zero

  /** The result of an operation that either succeeds with a value or raises. */
  datatype Result<+T> = Ok(value: T) | Err(error: PyError)
}
