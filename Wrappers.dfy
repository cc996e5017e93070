/** Optional values and results with an error channel, shared by every module. */
module Wrappers {

  /** `None` stands for Java's `null`. */
  datatype Option<+T> = None | Some(value: T)

  /** `Err` stands for an exception thrown by the modelled operation. */
  datatype Result<+T, +E> = Ok(value: T) | Err(error: E)

  /** What a `void` operation does: return normally or throw. */
  datatype Outcome<+E> = Pass | Fail(error: E)
}
