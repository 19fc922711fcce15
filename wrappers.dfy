/** Optional values, error results, and Python's truthiness of the optional
    values that the program tests with `if x:` or `x or default`. */
module Wrappers {

  datatype Option<+T> = None | Some(value: T)

  datatype Result<+T, +E> = Ok(value: T) | Err(error: E)

  /** `if year:` on an `int | None`: false for None and for 0. */
  predicate IntTruthy(x: Option<int>) {
    x.Some? && x.value != 0
  }

  /** `if s:` on a `str | None`: false for None and for the empty string. */
  predicate TextTruthy(x: Option<string>) {
    x.Some? && x.value != ""
  }
}
