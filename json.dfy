/** The JSON values that `json.loads` and the config server produce, as Python sees them. */
module Json {
  import opened Text

  /**
   * A decoded JSON value. Floats, lists and nested objects are kept opaque:
   * only their `str()` text and their truthiness matter to the bot.
   */
  datatype JsonValue =
    | JStr(s: string)
    | JInt(i: int)
    | JBool(b: bool)
    | JNull
    | JOther(repr: string, truthy: bool)

  /** A decoded JSON object (a Python `dict` with string keys). */
  type Object = map<string, JsonValue>

  /** What `f"{v}"` prints for a decoded value. */
  function Format(v: JsonValue): string {
    match v
    case JStr(s) => s
    case JInt(i) => IntToString(i)
    case JBool(b) => if b then "True" else "False"
    case JNull => "None"
    case JOther(repr, _) => repr
  }

  /** Python truthiness: `not v` is false. */
  predicate Truthy(v: JsonValue) {
    match v
    case JStr(s) => s != ""
    case JInt(i) => i != 0
    case JBool(b) => b
    case JNull => false
    case JOther(_, t) => t
  }
}
