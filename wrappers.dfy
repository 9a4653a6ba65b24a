/** Option and Result, the failure-carrying return types used across the model, and one sequence law the folds share. */
module Wrappers {

  datatype Option<+T> = None | Some(value: T)

  /** The outcome of an operation that either succeeds with a value or fails with an error. */
  datatype Result<+R, +E> = Success(value: R) | Failure(error: E)

  /** Moving the first element of `xs` onto the end of `done` keeps the whole sequence. */
  lemma AppendFirst<T>(done: seq<T>, xs: seq<T>)
    requires xs != []
    ensures done + [xs[0]] + xs[1..] == done + xs
  {
    assert xs == [xs[0]] + xs[1..];
  }
}
