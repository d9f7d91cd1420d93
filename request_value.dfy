/**
 * A value as it arrives in a request body or query string, before the
 * validators look at it.
 */
module RequestValue {

  /** `Absent` is `undefined` or `null`; `NonString` is any other JSON value
      (a number, a boolean, an array, an object), with its JavaScript
      truthiness. */
  datatype Value = Absent | Str(text: string) | NonString(truthy: bool)

  /** JavaScript truthiness: `undefined`, `null` and `''` are falsy. */
  predicate Truthy(v: Value) {
    match v
    case Absent => false
    case Str(t) => t != []
    case NonString(b) => b
  }

  /** `whitelist` with `forbidNonWhitelisted`: the properties of a body or
      query that `isField` does not recognise, each one reported. */
  function UnknownProperties(props: map<string, Value>, isField: string -> bool): (u: set<string>)
    ensures forall k :: k in u <==> k in props && !isField(k)
  {
    set k | k in props && !isField(k)
  }
}
