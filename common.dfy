/** Option and Result, used for the pandas NaN value and for the errors that abort a stage. */
module Common {

  /** `None` stands for a missing value (NaN or NaT in the data frame). */
  datatype Option<T> = None | Some(value: T)

  /** The outcome of a stage that either produces a value or raises. */
  datatype Result<T, E> = Ok(value: T) | Err(error: E)
}
