/** How the model writes Go's error returns. Go reports a failure as an
    `error` value next to (or instead of) a result; the model uses `Option`
    for "value or nil", `Result` for "value or error" and `Effect` for "the
    store after the call, plus the error it returned". */
module Wrappers {

  datatype Option<+T> = None | Some(value: T)

  datatype Result<+R, +E> = Success(value: R) | Failure(error: E)

  /** The state of a keyed store after an operation, and the error the
      operation returned (`None` for Go's `nil`). */
  datatype Effect<S> = Effect(store: S, err: Option<string>) {
    predicate Ok() {
      err.None?
    }
  }
}
