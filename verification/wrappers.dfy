/** Failure-compatible wrappers shared by every module of the model.

    Python exceptions and Java exceptions of the modelled code become values of
    `Error`; an operation that may raise returns a `Result`. */
module Wrappers {

  datatype Option<+T> = None | Some(value: T) {
    predicate IsFailure() { None? }

    function PropagateFailure<U>(): Option<U>
      requires None?
    {
      None
    }

    function Extract(): T
      requires Some?
    {
      value
    }

    function GetOr(default: T): T {
      match this
      case Some(v) => v
      case None => default
    }
  }

  /** The exception classes the modelled code raises or lets escape. */
  datatype Error =
    | ValueError(msg: string)
    | TypeError(msg: string)
    | OSError(msg: string)
    | NotImplementedError(msg: string)
    | FileExistsError(path: string)
    | FileNotFoundError(path: string)
    | IsADirectoryError(path: string)
    | NotADirectoryError(path: string)
    | AttributeError(name: string)
    | IndexError(msg: string)
    | KeyError(key: string)
    | ImportError(name: string)
    | LibraryError(msg: string)
    | PatternSyntaxError(msg: string)
    | Exception(msg: string)
  {
    /** The text the exception carries: Python's `str(e)`, Java's
        `getMessage()`. */
    function Message(): string {
      match this
      case ValueError(m) => m
      case TypeError(m) => m
      case OSError(m) => m
      case NotImplementedError(m) => m
      case FileExistsError(m) => m
      case FileNotFoundError(m) => m
      case IsADirectoryError(m) => m
      case NotADirectoryError(m) => m
      case AttributeError(m) => m
      case IndexError(m) => m
      case KeyError(m) => m
      case ImportError(m) => m
      case LibraryError(m) => m
      case PatternSyntaxError(m) => m
      case Exception(m) => m
    }
  }

  datatype Result<+T> = Ok(value: T) | Err(error: Error) {
    predicate IsFailure() { Err? }

    function PropagateFailure<U>(): Result<U>
      requires Err?
    {
      Err(error)
    }

    function Extract(): T
      requires Ok?
    {
      value
    }
  }
}
