/** Failure-carrying results. The mock back-end answers `{ success: false, message }`
    instead of throwing, which `Err(message)` stands for. */
module Wrappers {

  datatype Option<+T> = None | Some(value: T)

  datatype Result<+T> = Ok(value: T) | Err(message: string)
}
