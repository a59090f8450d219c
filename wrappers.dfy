/** Option and Result: the "value or nothing" and "value or error" shapes that
    the JavaScript handlers express with `undefined`/`null` and with thrown or
    returned errors. */
module Wrappers {

  datatype Option<+T> = None | Some(value: T)

  datatype Result<+R, +E> = Success(value: R) | Failure(error: E)
}
