/** Optional values and the outcome of an operation that can fail with an NTSTATUS code. */
module Outcomes {

  /** A value that may be absent; stands for a C# reference that may be null. */
  datatype Option<+T> = None | Some(value: T)

  /** The result of a call that either yields a value or raises a fatal error carrying a status code. */
  datatype Outcome<+T> = Ok(value: T) | Fatal(status: int)
}
