/** Option and Result, the two shapes the rest of the model uses for
    "absent" values (a null foreign key, a missing query parameter) and for
    operations that raise instead of returning. */
module Wrappers {

  datatype Option<+T> = None | Some(value: T)

  datatype Result<+R, +E> = Success(value: R) | Failure(error: E)
}
