/**
 Error values shared by the bucket, the index parser and the snapshot store.

 Errors are data: an operation that can fail returns a `Result`, and the
 error it carries is the one the failing collaborator produced, unchanged.
 */
module Errors {

  /** The portable error codes of the blob library. Only `NotFound` is
      inspected by the store; the others are carried along unchanged. */
  datatype ErrorCode =
    | Unknown
    | NotFound
    | AlreadyExists
    | InvalidArgument
    | FailedPrecondition
    | PermissionDenied
    | ResourceExhausted
    | Internal
    | Unimplemented
    | Canceled
    | DeadlineExceeded

  /** An error as seen by the store: its code and a diagnostic message. */
  datatype Error = Error(code: ErrorCode, message: string)

  datatype Option<+T> = None | Some(value: T)

  /** The `(value, err)` pair of a fallible call: exactly one of the two is set. */
  datatype Result<+T> = Ok(value: T) | Err(error: Error)
}
