/** Option and Result types, and the Python exceptions the console core can raise. */
module Outcomes {

  datatype Option<T> = None | Some(value: T)

  /** The two exceptions reachable in the modelled code: unpacking an empty
      `split()` raises ValueError, indexing it raises IndexError. */
  datatype PyError = ValueError | IndexError

  /** A Python call either returns a value or raises an exception. */
  datatype Result<T> = Ok(value: T) | Raised(error: PyError)
}
