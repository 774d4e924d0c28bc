/** Return codes, and results that may be missing or failed. */
module Common {

  datatype Option<+T> = None | Some(value: T)

  /** Return codes. UNDEFINED stands for a failing ASSERT or an operation C++ leaves undefined (integer overflow). */
  datatype RC =
    | SUCCESS | RECORD_EOF | NOTFOUND | INTERNAL | UNIMPLEMENTED | UNSUPPORTED | INVALID_ARGUMENT | IOERR_WRITE | UNDEFINED

  datatype Result<+T> = Ok(value: T) | Err(rc: RC) {
    predicate IsFailure() { Err? }
    function PropagateFailure<U>(): Result<U> requires Err? { Err(rc) }
    function Extract(): T requires Ok? { value }
  }
}
