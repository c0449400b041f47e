/** The Python values a JSON request decodes to, as far as the dict-based
    servers (src/maillog/api_server.py, src/maillog/api/server.py) look at them. */
module Values {
  import opened Text

  /** A JSON scalar after `json.loads`: `null`, a boolean, an integer or a string. */
  datatype Value = Null | Bool(b: bool) | Int(i: int) | Str(s: string)

  /** A decoded request: a JSON object (a `dict`), or anything else (a list, a scalar). */
  datatype Document = Object(fields: map<string, Value>) | NotObject

  /** `fields.get(key, default)`. */
  function Get(fields: map<string, Value>, key: string, default: Value): Value
  {
    if key in fields then fields[key] else default
  }

  /** Python truthiness, as used by `if immediate:`. */
  predicate Truthy(v: Value)
  {
    match v
    case Null => false
    case Bool(b) => b
    case Int(i) => i != 0
    case Str(s) => s != ""
  }

  /** `str(v)`: `None`, `True`/`False`, decimal digits, or the string itself. */
  function PyStr(v: Value): string
  {
    match v
    case Null => "None"
    case Bool(b) => if b then "True" else "False"
    case Int(i) => IntToString(i)
    case Str(s) => s
  }
}
