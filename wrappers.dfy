/** Option, and the outcome of a Python call: a returned value or a raised exception. */
module Wrappers {

  /** A value that may be absent, as Python's `None`. */
  datatype Option<+T> = None | Some(value: T)

  /** The built-in Python exceptions the modelled code can raise. */
  datatype Exception = TypeError | AttributeError

  /** What a Python call does: it returns a value or it raises an exception. */
  datatype Outcome<+T> = Return(value: T) | Raise(exception: Exception)
}
