/** Small shared vocabulary: optional values, results and JavaScript's `Math.round`. */
module Common {

  /** A value that may be absent (`undefined` / `null` on the JavaScript side). */
  datatype Option<+T> = None | Some(value: T)

  /** A value, or the message of the error raised instead. */
  datatype Result<+T> = Success(value: T) | Failure(error: string)

  /** `Math.round` on an exact real: the nearest integer, halves rounded up
      (towards positive infinity), i.e. floor(x + 1/2). */
  function Round(x: real): (r: int)
    ensures r as real - 0.5 <= x < r as real + 0.5
  {
    (x + 0.5).Floor
  }
}
