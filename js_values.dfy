/**
 * The JavaScript values a tool invocation carries, reduced to what the
 * display component can tell apart.
 */
module JsValues {

  /**
   * The value of one property of the call arguments (or the invocation's
   * result). Strings are kept; every other value is reduced to its
   * truthiness: `FalsyOther` is undefined, null, false, 0 or NaN, and
   * `TruthyOther` is any other non-string (a non-zero number, true, an
   * object or an array). None of the non-string values has a `split` method.
   */
  datatype Field = Str(text: string) | FalsyOther | TruthyOther

  /** JavaScript truthiness of a field; the empty string is falsy. */
  predicate Truthy(f: Field) {
    match f
    case Str(t) => t != ""
    case FalsyOther => false
    case TruthyOther => true
  }

  /**
   * A non-string argument value. `Nullish` is null or undefined, the only
   * values whose destructuring throws. `Obj` is any other value, seen through
   * its own properties; a number, a boolean, an array or a string met after
   * decoding has none of the properties the component reads, so it is
   * `Obj(map[])`.
   */
  datatype JsValue = Obj(fields: map<string, Field>) | Nullish

  /** The `args` of an invocation: serialized text, or a value used as is. */
  datatype Args = Serialized(text: string) | Value(value: JsValue)

  /** Reading a property: a missing key reads as undefined. */
  function Get(fields: map<string, Field>, key: string): Field {
    if key in fields then fields[key] else FalsyOther
  }
}
