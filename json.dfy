/** JSON values as Python's json module hands them to the program: the
    configuration files are dictionaries of these. */
module Json {
  import opened Text

  datatype Value =
    | Null
    | Bool(b: bool)
    | Int(i: int)
    /** A float, carried as its Python repr ("0.7"); the model never computes with it. */
    | Num(repr: string)
    | Str(s: string)
    | List(items: seq<Value>)
    | Obj(fields: map<string, Value>)

  /** A JSON object: a Python dict with str keys. */
  type Obj = map<string, Value>

  /** Python truthiness of a JSON value (`if v:`). */
  predicate Truthy(v: Value) {
    match v
    case Null => false
    case Bool(b) => b
    case Int(i) => i != 0
    case Num(r) => r != "0.0" && r != "-0.0"
    case Str(s) => s != ""
    case List(xs) => xs != []
    case Obj(m) => m != map[]
  }

  /** Python's str() of a scalar JSON value, as an f-string prints it.
      Lists and dicts print as a fixed placeholder (see README, Left out). */
  function PyStr(v: Value): string {
    match v
    case Null => "None"
    case Bool(b) => if b then "True" else "False"
    case Int(i) => IntToString(i)
    case Num(r) => r
    case Str(s) => s
    case List(_) => "[...]"
    case Obj(_) => "{...}"
  }

  /** `d.get(key, default)` on a dict. */
  function GetOr(m: Obj, key: string, default: Value): Value {
    if key in m then m[key] else default
  }

  /** A str field of a dict, or the default when it is missing or not a str. */
  function StrField(m: Obj, key: string, default: string): string {
    if key in m && m[key].Str? then m[key].s else default
  }
}
