/** Optional values, results and the scraper's failure cases. */
module Wrappers {

  /** A value that may be absent (Python's `None`). */
  datatype Option<+T> = None | Some(value: T)

  /** The outcome of an operation that may raise. */
  datatype Result<+T, +E> = Ok(value: T) | Err(error: E)

  /** The exceptions the scraper's core can raise. */
  datatype Error =
    | NearUnset        // `self.near` read before either location setter ran (AttributeError)
    | NoMidValue       // a `mid` segment of a movie link has no `=` (IndexError)
    | NoSynopsisText   // the "continued" synopsis element has no text fragment (IndexError)
}
