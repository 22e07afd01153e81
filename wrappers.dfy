/** Optional values and the JavaScript/Python "return or throw" shape. */
module Wrappers {

  /** A nullable column, an `undefined` JSON field, or a query that found no row. */
  datatype Option<T> = None | Some(value: T) {

    function GetOr(default: T): T {
      match this
      case Some(v) => v
      case None => default
    }
  }

  /** The result of a call that either returns a value or throws an `Error(message)`. */
  datatype Outcome<T> = Ok(value: T) | Thrown(message: string)
}

/** A JSON value as a route handler receives it after `request.json()`. */
module Json {
  import Wrappers

  /**
   * JSON numbers are modelled as integers (money in cents); NaN and fractional
   * numbers are not modelled. Objects and arrays are `Composite`.
   */
  datatype JsonValue = Undefined | Null | Bool(b: bool) | Number(n: int) | Str(s: string) | Composite

  /** JavaScript truthiness: `!v` is false exactly for these values. */
  predicate Falsy(v: JsonValue) {
    v.Undefined? || v.Null? || v == Bool(false) || v == Number(0) || v == Str("")
  }

  /** A string field that may be missing: `undefined` or `null` both become None. */
  predicate FalsyString(v: Wrappers.Option<string>) {
    v.None? || v.value == ""
  }
}
