/** Optional values, and the exceptions of the library as values. */
module Wrappers {

  /** `Optional`, `OptionalInt` and the present/absent boxes of the library. */
  datatype Option<+T> = None | Some(value: T)

  /** The exceptions the modelled code throws, one constructor each. */
  datatype Failure =
    | NoSuchElement          // next() on an exhausted upstream cursor
    | IndexOutOfBounds       // AdvancerDistinct.next() with nothing left
    | IllegalState           // AdvancerList.traverse() on an exhausted cursor
    | UnsupportedOperation   // tryAdvance() of a query built by then(next)

  /** A value, or the exception raised instead of returning one. */
  datatype Result<+T> = Ok(value: T) | Err(failure: Failure)
}
