/** Optional values and operation outcomes, used for the adapter's thrown errors and its "nothing here" cases. */
module Wrappers {

  /** A value that may be absent (a JavaScript `null`/`undefined`/`false` slot). */
  datatype Option<+T> = None | Some(value: T)

  /** The outcome of an operation that either returns normally or throws an error. */
  datatype Outcome<+E> = Pass | Fail(error: E)

  /** A value or the error that prevented computing it. */
  datatype Result<+R, +E> = Success(value: R) | Failure(error: E)

  /** No element occurs twice. */
  ghost predicate NoDuplicates<T>(s: seq<T>) {
    forall i, j :: 0 <= i < j < |s| ==> s[i] != s[j]
  }
}
