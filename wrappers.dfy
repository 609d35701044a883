/** Option, Result and the crate's error type (chess-core/src/lib.rs). */
module Wrappers {

  datatype Option<T> = None | Some(value: T)

  /** The three error kinds of the crate; each carries its message text. */
  datatype Error =
    | InvalidMove(msg: string)
    | InvalidPosition(msg: string)
    | InvalidFen(msg: string)

  /** `Result<T>` of lib.rs: success or one of the errors above. */
  datatype Result<T> = Ok(value: T) | Err(error: Error)
  {
    predicate IsFailure() { Err? }
    function PropagateFailure<U>(): Result<U> requires Err? { Err(error) }
    function Extract(): T requires Ok? { value }
  }
}
