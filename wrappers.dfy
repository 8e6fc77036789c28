/** Optional values, results, and the Python exceptions the modelled code can raise. */
module Wrappers {

  datatype Option<+T> = None | Some(value: T)

  datatype Result<+T, +E> = Ok(value: T) | Err(error: E)

  /** The exceptions that escape the modelled functions. An exception that a
      request handler does not catch becomes an HTTP 500 response. */
  datatype Exception =
    | TypeError       // an operand of the wrong type (`id in 3`, `id in "text"`)
    | ValueError      // a string that does not parse, a failed tuple unpack
    | OverflowError   // a date-time shifted outside years 1..9999
    | AttributeError  // `getattr` of a name the model class does not have
    | KeyError        // a configuration key that is not set
    | DatabaseError   // the database refuses a query argument
}
