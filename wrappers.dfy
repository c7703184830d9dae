/** Option and the outcome of a Rust call that returns a `Result<T, String>`
    and may also panic. */
module Wrappers {

  datatype Option<+T> = None | Some(value: T)

  /** `Ok(v)` and `Err(e)` are the two arms of `Result<T, String>`; `Panic(reason)`
      is a call that never returns because an `expect` failed. */
  datatype Outcome<+T> = Ok(value: T) | Err(error: string) | Panic(reason: string)
}
