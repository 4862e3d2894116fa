/** Failure-compatible datatypes used throughout the model. `Option` stands for a
    nullable dataframe cell (None is pandas' NaN / NaT); `Result` stands for a
    pandas call that either returns or raises. */
module Wrappers {

  datatype Option<+T> = None | Some(value: T)

  datatype Result<+R, +E> = Success(value: R) | Failure(error: E)
}
