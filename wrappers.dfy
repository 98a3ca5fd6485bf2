/** Option and Result, standing for Python's `None` and for an exception that ends the script. */
module Wrappers {

  datatype Option<+T> = None | Some(value: T) {
    function GetOr(default: T): T {
      match this
      case Some(v) => v
      case None => default
    }
  }

  /** The Python exceptions the modelled code can raise. */
  datatype PyError =
    | KeyError          // a missing dict key or XML attribute
    | IndexError        // `xs[0]` on an empty list
    | AttributeError    // `None.group(1)`, a missing object attribute
    | ValueError        // unpacking the wrong number of fields, `commonpath` mixing absolute and relative
    | AssertionError    // a failed `assert`
    | RuntimeError      // `raise RuntimeError(...)`
    | TypeError         // a call with the wrong number of arguments
    | UnpicklingError   // a truncated or damaged pickle

  datatype Result<+T> = Ok(value: T) | Err(error: PyError)
}
