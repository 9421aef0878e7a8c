/** Success/failure wrappers shared by the scraper model.
    `Option` stands for Python's "a value or None"; `Result` carries a reason
    for a failure that the source reports before giving up. */
module Outcomes {

  datatype Option<+T> = None | Some(value: T)

  datatype Result<+T, +E> = Ok(value: T) | Err(error: E)
}
