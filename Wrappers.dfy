/** Option and Result: the model's stand-ins for C# null references and thrown exceptions. */
module Wrappers {

  /** A value that may be absent; `None` plays the part of a C# null reference. */
  datatype Option<+T> = None | Some(value: T) {

    /** The value, or `default` when absent (the C# `??` operator). */
    function GetOr(default: T): T {
      match this
      case Some(v) => v
      case None => default
    }
  }

  /** The outcome of an operation that may throw: `Failure` carries the exception's message. */
  datatype Result<+R> = Success(value: R) | Failure(error: string)
}
