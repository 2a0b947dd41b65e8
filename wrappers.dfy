/** Small failure-carrying datatypes shared by the whole model. */
module Wrappers {

  /** An optional value; also stands for JavaScript's `T | null` and Rust's `Option<T>`. */
  datatype Option<T> = None | Some(value: T)
  {
    function GetOr(default: T): T
    {
      match this
      case Some(v) => v
      case None => default
    }
  }

  /** How a call into the backend settled: it resolved, or it rejected with a message. */
  datatype Outcome = Done | Failed(reason: string)

  /** A Rust `Result<T, String>` as returned by a backend command. */
  datatype Result<T> = Ok(value: T) | Err(error: string)
}
