/** Values the deck builder receives from JavaScript: optional values,
    results of calls that may throw, and JavaScript truthiness of an
    optional configuration string. */
module JsValues {

  /** A value that may be `undefined`. */
  datatype Option<+T> = None | Some(value: T)

  /** The outcome of a call that either returns or throws. */
  datatype Result<+R, +E> = Success(value: R) | Failure(error: E)

  /** `Boolean(slot)` for an environment variable: `undefined` and the
      empty string are falsy, every other string is truthy. */
  predicate Truthy(slot: Option<string>) {
    slot.Some? && |slot.value| > 0
  }
}
