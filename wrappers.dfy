/** Failure-carrying results. The Java code reports a violated precondition or a malformed
    message by throwing; the model returns `None` / `Err` instead. */
module Wrappers {

  datatype Option<+T> = None | Some(value: T)

  datatype Result<+T> = Ok(value: T) | Err(reason: string)
}
