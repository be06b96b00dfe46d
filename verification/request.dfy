/** Query-string values and the readings PHP gives them. Parsing itself
    (`is_numeric`, the `(float)` and `(int)` casts, `new DateTime(...)` at
    request time) is not modelled: a caller supplies each reading alongside
    the raw text, and the model decides which reading each step uses. */
module Request {
  import opened Domain

  /** One `$_GET` value: its text, whether `is_numeric` accepts it, its
      `(float)` and `(int)` casts, and the instant `new DateTime($text)`
      yields (`None` when the constructor throws). */
  datatype Param = Param(text: string, numeric: bool, asFloat: real, asInt: int, asDate: Option<Moment>)

  /** A string is falsy in PHP exactly when it is "" or "0"; `empty()` of a
      set value is the negation of the same test. */
  predicate Truthy(p: Param) {
    p.text != "" && p.text != "0"
  }

  /** `(int)` of a float: truncation toward zero. */
  function Trunc(x: real): (n: int)
    ensures 0.0 <= x ==> n as real <= x < n as real + 1.0
    ensures x < 0.0 ==> n as real - 1.0 < x <= n as real
  {
    if x >= 0.0 then x.Floor else -((-x).Floor)
  }

  /** Truncation never reverses an order. */
  lemma TruncMonotone(a: real, b: real)
    requires a <= b
    ensures Trunc(a) <= Trunc(b)
  {
  }

  /** The `(int)` reading of a numeric string is its `(float)` reading
      truncated toward zero. */
  predicate Coherent(p: Param) {
    p.numeric ==> p.asInt == Trunc(p.asFloat)
  }

  /** What a handler answers: a body, a 400 with an error message, or an
      uncaught exception (a 500). */
  datatype Outcome<T> = Ok(value: T) | BadRequest(message: string) | ServerError
}
