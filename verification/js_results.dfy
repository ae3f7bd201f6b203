/** The shapes of the answers the storage and label functions give. */
module JsResults {

  /** A value that may be missing; `None` stands for JavaScript's `false`/`undefined`
      answers of the modelled functions. */
  datatype Option<+T> = None | Some(value: T)

  /** A call that may throw: the value it returned, or the fact that it threw
      (the callers never inspect the error object). */
  datatype Attempt<+T> = Returned(value: T) | Threw
}
