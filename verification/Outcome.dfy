/** The two outcome types every other module uses for missing values and raised errors. */
module Outcome {
  datatype Option<+T> = None | Some(value: T)

  datatype Result<+T, +E> = Ok(value: T) | Err(error: E)
}
