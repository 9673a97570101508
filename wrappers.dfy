/** Option and Result, the two failure-carrying values the model uses in place of
    C#'s nullable references and thrown exceptions. */
module Wrappers {

  /** A nullable reference: `None` is C#'s `null`. */
  datatype Option<+T> = None | Some(value: T)

  /** A value or the exception that a C# call would have thrown instead. */
  datatype Result<+T, +E> = Success(value: T) | Failure(error: E)

  /** C# string interpolation renders a null string as the empty string. */
  function Interpolated(s: Option<string>): (r: string)
    ensures s.Some? ==> r == s.value
    ensures s.None? ==> r == ""
  {
    match s
    case Some(v) => v
    case None => ""
  }

  /** `string.IsNullOrEmpty`. */
  predicate IsNullOrEmpty(s: Option<string>)
  {
    s.None? || s.value == ""
  }
}
