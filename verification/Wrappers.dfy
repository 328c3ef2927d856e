/** Outcomes shared by every module: optional values and fallible operations. */
module Wrappers {

  datatype Option<+T> = None | Some(value: T)

  /** The error kinds the sources distinguish. `Panicked` stands for a failed `unwrap`,
      `assert!` or checked-build integer overflow, which end the calling thread. */
  datatype Error =
    | UnexpectedEof
    | InvalidData
    | InvalidInput
    | WriteZero
    | Other
    | Panicked

  datatype Result<+T> = Ok(value: T) | Err(error: Error) {
    predicate IsFailure() {
      Err?
    }

    function PropagateFailure<U>(): Result<U>
      requires Err?
    {
      Err(error)
    }

    function Extract(): T
      requires Ok?
    {
      value
    }
  }
}
