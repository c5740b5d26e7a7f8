/** The decoded request: the JSON object `json.loads` gives the engine, and the
    few Python operations the engine applies to its values. */
module Json {
  import opened Wrappers
  import opened Text

  /** A decoded JSON value. Numbers are integers: the request fields that hold
      numbers (`n` of a ranking, a filter value) are integral in practice. */
  datatype Json =
    | JNull
    | JBool(b: bool)
    | JNum(n: int)
    | JStr(s: string)
    | JArr(items: seq<Json>)
    | JObj(fields: map<string, Json>)

  /** `d.get(key)`: the value under `key`, or None (JSON null) when absent. */
  function Get(d: map<string, Json>, key: string): Json {
    if key in d then d[key] else JNull
  }

  /** Python truthiness (`if x:`): null, false, 0, "", [] and {} are false. */
  predicate Truthy(j: Json) {
    match j
    case JNull => false
    case JBool(b) => b
    case JNum(n) => n != 0
    case JStr(s) => s != ""
    case JArr(xs) => xs != []
    case JObj(m) => m != map[]
  }

  /** Python's `str(v)` of a scalar value: "None", "True", "False", the
      string itself, or the decimal text of a number, which reads back as that
      number; lists and objects are not rendered. */
  function PyStr(j: Json): (r: Option<string>)
    ensures r.None? <==> j.JArr? || j.JObj?
    ensures j.JNull? ==> r == Some("None")
    ensures j.JBool? ==> r == Some(if j.b then "True" else "False")
    ensures j.JStr? ==> r == Some(j.s)
    ensures j.JNum? ==> r == Some(IntText(j.n)) && ParseDecimal(r.value) == Some(j.n as real)
  {
    match j
    case JNull => Some("None")
    case JBool(b) => Some(if b then "True" else "False")
    case JNum(n) => ParseIntText(n); Some(IntText(n))
    case JStr(s) => Some(s)
    case JArr(_) => None
    case JObj(_) => None
  }

  /** The column label a request field holds: its text when it is a string. */
  function Label(j: Json): Option<string> {
    if j.JStr? then Some(j.s) else None
  }

  /** The items a request field lists, when it is a list. */
  function Items(j: Json): seq<Json> {
    if j.JArr? then j.items else []
  }
}
