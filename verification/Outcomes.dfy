/** The two result shapes the models share: a value that may be absent, and an
    answer that may be an error the source throws. */
module Outcomes {
  datatype Option<+T> = None | Some(value: T)

  datatype Result<+T, +E> = Ok(value: T) | Err(error: E)
}
