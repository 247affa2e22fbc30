/** Option and Result, used for nullable columns and for writes the store can reject. */
module Wrappers {

  /** A nullable value: `None` stands for SQL NULL / C# `null`. */
  datatype Option<+T> = None | Some(value: T)

  /** The outcome of a write: the value produced, or the reason the store rejected it. */
  datatype Result<+R, +E> = Success(value: R) | Failure(error: E)

  /** The outcome of a write that produces no value. */
  datatype Outcome<+E> = Pass | Fail(error: E)

  /** Timestamps (`DateTime`) as integer ticks; ordering is the only property used. */
  type Time = int

  /** GUID-valued keys (`Guid`), opaque apart from equality. */
  type Guid = nat

  function Min(a: int, b: int): int { if a <= b then a else b }
}
