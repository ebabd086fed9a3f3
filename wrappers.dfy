/** Option and Result, used for the iterator's end of stream and for the
    parser's fatal error. */
module Wrappers {

  datatype Option<+T> = None | Some(value: T)

  datatype Result<+R, +E> = Success(value: R) | Failure(error: E)
}
