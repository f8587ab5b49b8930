/** Optional values, standing in for the C# `null` results of the ray tracer. */
module Wrappers {
  datatype Option<T> = None | Some(value: T)

  /** Outcome of an operation that can throw: `Failure` carries the exception's name. */
  datatype Result<T> = Success(value: T) | Failure(error: string)
}
