/** Failure-carrying datatypes shared by every module of the model.
    Errors are human-readable messages, as in the source's `anyhow` and
    boxed-error results. */
module Wrappers {

  datatype Option<+T> = None | Some(value: T)

  datatype Result<+T> = Ok(value: T) | Err(error: string)
}
