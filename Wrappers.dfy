/** Optional values and results carrying the Java exception that the source
    would throw on that path. */
module Wrappers {

  /** A Java reference that may be null. */
  datatype Option<+T> = None | Some(value: T)

  /** The two checked/unchecked exceptions the modelled code can raise. */
  datatype Failure =
    | CMException            // a content-store failure (com.polopoly.cm.client.CMException)
    | NumberFormatException  // Integer.parseInt on a malformed value

  /** Either a normal return value or the exception thrown instead. */
  datatype Result<+T> = Ok(value: T) | Err(error: Failure)
}
