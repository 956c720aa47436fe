/** Result types and Python value helpers shared by the modules of this model. */
module Wrappers {

  /** Python's `None` or a present value. */
  datatype Option<+T> = None | Some(value: T)

  /** The outcome of an operation that may raise. */
  datatype Result<+R, +E> = Success(value: R) | Failure(error: E)

  /** The outcome of an operation that returns nothing but may raise. */
  datatype Outcome<+E> = Pass | Fail(error: E)

  /** Python's `%s` of an optional string: `None` prints as "None". */
  function ShowOption(o: Option<string>): string {
    match o
    case None => "None"
    case Some(s) => s
  }

  /** Python truthiness of an optional string: `None` and `""` are both false. */
  predicate Truthy(o: Option<string>) {
    o.Some? && o.value != ""
  }
}
