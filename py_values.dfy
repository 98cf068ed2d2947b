/** Python values as configuration dictionaries hold them. */
module PyValues {

  /**
   * A configuration value. Floats are not modelled. Every nested dictionary
   * is a dictionary with string keys (a `ConfigDict` once stored).
   */
  datatype Value =
    | PyNone
    | Bool(b: bool)
    | Int(i: int)
    | Str(s: string)
    | List(items: seq<Value>)
    | Dict(entries: map<string, Value>)

  /** Python truthiness: None, False, 0, '' and empty containers are falsy. */
  predicate Truthy(v: Value)
  {
    match v
    case PyNone => false
    case Bool(b) => b
    case Int(i) => i != 0
    case Str(s) => s != []
    case List(items) => items != []
    case Dict(entries) => entries != map[]
  }

  /** `d[key]` on a ConfigDict: a missing key reads as None. */
  function Lookup(d: map<string, Value>, key: string): (v: Value)
    ensures key !in d ==> v == PyNone
    ensures key in d ==> v == d[key]
  {
    if key in d then d[key] else PyNone
  }
}
