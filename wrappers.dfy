/** Option and Result, and the Python exception classes the modelled code raises or lets through. */
module Wrappers {

  datatype Option<+T> = None | Some(value: T)

  /** The exception that ends a Python call; only its class is modelled, not its message. */
  datatype Error =
    | AssertionError      // a failed `assert` in the source
    | ValueError
    | TypeError
    | IndexError
    | KeyError
    | UnboundLocalError
    | FileNotFoundError
    | FileExistsError
    | IsADirectoryError
    | SameFileError       // `shutil.copy` onto its own source
    | NotADirectoryError
    | OSError
    | PermissionError     // an id change the process may not make
    | EOFError            // `input()` found no further answer
    | HttpError           // a failed request to a remote service
    | PlainException      // a bare `Exception(...)` raised by the legacy modules

  /** The classes Python 3 derives from `OSError`, which `socket.error` names: the file errors,
      `shutil`'s `SameFileError` and the HTTP errors of `urllib` and `requests`. */
  predicate IsOSError(e: Error) {
    || e.OSError? || e.FileNotFoundError? || e.FileExistsError? || e.IsADirectoryError?
    || e.NotADirectoryError? || e.PermissionError? || e.SameFileError? || e.HttpError?
  }

  /** The outcome of a call that either returns a value or raises. */
  datatype Result<+T> = Ok(value: T) | Err(error: Error) {
    predicate IsFailure() { Err? }

    function PropagateFailure<U>(): Result<U>
      requires Err?
    {
      Err(error)
    }

    function Extract(): T
      requires Ok?
    {
      value
    }
  }
}
