/** Error codes and the failure-compatible wrappers shared by every component.

    The C code returns a small-integer `errorCode` from every function and
    propagates the first non-OK code immediately; here that is `Result<T>`
    used with `:-`. */
module ErrorHandle {

  /** The error codes the modelled functions can return (ERR_OK is `Ok`). */
  datatype ErrorCode =
    | UnexpectedError          // UNEXPECTED_ERROR
    | NotImplementedYet        // NOT_IMPLEMENTED_YET
    | InconsistentProcState    // INCONSISTENT_PROC_STATE
    | InvalidOperation         // INVALID_OPERATION
    | InvalidExiInput          // INVALID_EXI_INPUT
    | NullPointerRef           // NULL_POINTER_REF
    | HandlerStopReceived      // HANDLER_STOP_RECEIVED
    | BufferEndReached         // the bit reader ran past the end of the stream
    | InvalidStringOperation   // a string that does not parse as an integer
    | OutOfBoundBuffer         // a row id read from the stream that names no row

  datatype Option<+T> = None | Some(value: T)

  datatype Result<+T> = Ok(value: T) | Err(code: ErrorCode) {

    predicate IsFailure() {
      Err?
    }

    function PropagateFailure<U>(): Result<U>
      requires Err?
    {
      Err(code)
    }

    function Extract(): T
      requires Ok?
    {
      value
    }
  }
}
