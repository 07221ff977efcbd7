/** Failure-compatible results shared by every module. */
module Wrappers {

  datatype Option<+T> = None | Some(value: T)

  // The error values the repository distinguishes (storage.ErrNotFound and the parse failures).
  datatype Error =
    | NotFound
    | InvalidManifestLine
    | InvalidDigest
    | UnknownDigestType
    | LineTooLong
    | DependencyNotB5

  datatype Result<+T> = Ok(value: T) | Err(error: Error) {

    predicate IsFailure() {
      Err?
    }

    function PropagateFailure<U>(): Result<U>
      requires Err?
    {
      Err(error)
    }

    function Extract(): T
      requires Ok?
    {
      value
    }
  }
}
