/** JavaScript value conventions the wizard relies on: nullable values,
    settled promises, and the truthiness test that `if (x)`, `x || y` and
    `!x` apply to strings. */
module Js {

  /** A nullable value: `null`/`undefined` is `None`. */
  datatype Option<+T> = None | Some(value: T)

  /** How an awaited call settled: resolved with a value, or rejected
      (thrown) with a reason. */
  datatype Outcome<+T> = Ok(value: T) | Err(reason: string) {
    /** The resolved value, forgetting why a rejection happened. */
    function ToOption(): Option<T> {
      match this
      case Ok(v) => Some(v)
      case Err(_) => None
    }
  }

  /** A nullable string is truthy when it is present and non-empty. */
  predicate Truthy(s: Option<string>) {
    s.Some? && s.value != ""
  }

  /** `x || null` for a string `x`: the empty string becomes `null`. */
  function OrNull(x: string): (r: Option<string>)
    ensures r.None? <==> x == ""
    ensures r.Some? ==> r.value == x
    ensures Truthy(r) <==> r.Some?
  {
    if x == "" then None else Some(x)
  }
}
