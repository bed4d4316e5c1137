/** Option and exception-aware results shared by the whole model. */
module Wrappers {

  datatype Option<+T> = None | Some(value: T)

  /** The Python exceptions that the modelled code can raise and not catch. */
  datatype PyError =
    | ValueError       // int(""), strptime on a bad date, a NUL character in os.environ
    | OSError          // setenv() refusing an empty variable name
    | OverflowError    // date arithmetic that leaves year 1..9999
    | AttributeError   // a method looked up on None
    | DatabaseError    // a statement the database refuses

  /** The outcome of a Python call: it returns a value or raises. */
  datatype Try<+T> = Returns(value: T) | Raises(error: PyError)
}
