/** Parsed JSON values as Python's `json.load` produces them, and the few
    dictionary operations the pipeline uses on them. */
module Json {
  import opened Common

  /** A JSON value. Numbers are kept as reals: the pipeline never does
      arithmetic on them, only compares and copies them. */
  datatype Value =
    | Null
    | Bool(b: bool)
    | Num(n: real)
    | Str(s: string)
    | Array(items: seq<Value>)
    | Object(fields: Dict)

  /** A Python `dict` decoded from a JSON object. Key order is not modelled. */
  type Dict = map<string, Value>

  /** Python's `d.get(key, default)` on a dictionary keyed by strings. */
  function Get<V>(d: map<string, V>, key: string, default: V): (v: V)
    ensures key in d ==> v == d[key]
    ensures key !in d ==> v == default
  {
    if key in d then d[key] else default
  }

  /** Python truth value of a decoded JSON value (`if v:`). */
  predicate Truthy(v: Value)
  {
    match v
    case Null => false
    case Bool(b) => b
    case Num(n) => n != 0.0
    case Str(s) => s != ""
    case Array(items) => items != []
    case Object(fields) => fields != map[]
  }

  /** Python truth value of a `dict`-or-`None` result (`if item:`). */
  predicate TruthyDict(r: Option<Dict>)
  {
    r.Some? && r.value != map[]
  }

  /** The value under `key` is the JSON string `s`; a missing key or a
      non-string value never compares equal to a Python `str`. */
  predicate IsStringIn(d: Dict, key: string, allowed: seq<string>)
  {
    key in d && d[key].Str? && d[key].s in allowed
  }
}
