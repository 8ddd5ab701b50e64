/** Failure-compatible wrappers shared by the model. Every panic and every
    `Err` of the crate is one `Fail`: the model does not tell error kinds apart. */
module Wrappers {

  datatype Option<+T> = None | Some(value: T)

  datatype Result<+T> = Ok(value: T) | Fail
}
