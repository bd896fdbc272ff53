/** The two result types shared by every service model. */
module Wrappers {

  datatype Option<+T> = None | Some(value: T)

  /** `Err` stands for a raised `ValidationError` or a violated database constraint. */
  datatype Result<+T, +E> = Ok(value: T) | Err(error: E)
}
