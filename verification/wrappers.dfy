/** The optional value used throughout the model for Swift's `T?`. */
module Wrappers {

  datatype Option<+T> = None | Some(value: T)

  /** The first present value of `a` and `b`: Swift's `a ?? b` on two optionals. */
  function OrElse<T>(a: Option<T>, b: Option<T>): (r: Option<T>)
    ensures a.Some? ==> r == a
    ensures a.None? ==> r == b
  {
    if a.Some? then a else b
  }
}
