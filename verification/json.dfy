/** The values a YAML or JSON document loads to, as the Python code sees
    them after `yaml.safe_load` or `json.load`, with Python's truthiness. */
module Json {
  import opened Wrappers
  import PyStr

  /** A loaded value. Mappings are keyed by strings; floats are not modelled. */
  datatype JValue =
    | JNull
    | JBool(b: bool)
    | JInt(i: int)
    | JStr(s: string)
    | JList(items: seq<JValue>)
    | JMap(fields: map<string, JValue>)

  /** Python's `bool(v)`: `None`, `False`, `0`, `""` and empty containers are
      false, everything else true. */
  predicate Truthy(v: JValue) {
    match v
    case JNull => false
    case JBool(b) => b
    case JInt(i) => i != 0
    case JStr(s) => |s| > 0
    case JList(items) => |items| > 0
    case JMap(fields) => |fields| > 0
  }

  /** `d.get(key, default)` on a mapping. */
  function Get(fields: map<string, JValue>, key: string, default: JValue): (r: JValue)
    ensures key in fields ==> r == fields[key]
    ensures key !in fields ==> r == default
  {
    if key in fields then fields[key] else default
  }

  /** `d.get(key, default)` on a value that may or may not be a mapping; a
      non-mapping answers the default, as `.get` on `{}` would. */
  function GetIn(v: JValue, key: string, default: JValue): (r: JValue)
    ensures v.JMap? ==> r == Get(v.fields, key, default)
    ensures !v.JMap? ==> r == default
  {
    if v.JMap? then Get(v.fields, key, default) else default
  }

  /** Python's `int(v)` on a loaded value: an integer is itself, a boolean
      is 1 or 0, a string is parsed; None where Python raises. */
  function IntValue(v: JValue): (r: Option<int>)
    ensures v.JInt? ==> r == Some(v.i)
    ensures v.JBool? ==> r == Some(if v.b then 1 else 0)
    ensures v.JStr? ==> r == PyStr.PyInt(v.s)
    ensures v.JNull? || v.JList? || v.JMap? ==> r.None?
  {
    match v
    case JInt(i) => Some(i)
    case JBool(b) => Some(if b then 1 else 0)
    case JStr(s) => PyStr.PyInt(s)
    case _ => None
  }
}
