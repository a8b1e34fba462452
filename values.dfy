/** JSON-like values: what Python dicts, SQL parameters and json documents hold in the tracker. */
module Values {
  import opened Wrappers

  datatype Value =
    | Null
    | Bool(b: bool)
    | Int(i: int)
    | Str(s: string)
    | Arr(items: seq<Value>)
    | Obj(fields: map<string, Value>)

  /** Python truthiness of a value (`bool(v)`). */
  predicate Truthy(v: Value) {
    match v
    case Null => false
    case Bool(b) => b
    case Int(i) => i != 0
    case Str(s) => s != []
    case Arr(items) => items != []
    case Obj(fields) => fields != map[]
  }

  /** The `json` standard module, injected: `dumps` renders a value, `loads` parses text or fails (None). */
  datatype JsonCodec = JsonCodec(dumps: Value -> string, loads: string -> Option<Value>)

  /** `d.get(key, default)` on a dict. */
  function Get(fields: map<string, Value>, key: string, default: Value): Value {
    if key in fields then fields[key] else default
  }

  function FromOptInt(x: Option<int>): Value {
    if x.Some? then Int(x.value) else Null
  }

  function FromOptStr(x: Option<string>): Value {
    if x.Some? then Str(x.value) else Null
  }

  /** A column read back as text: a string value, or NULL for anything else. */
  function AsText(v: Value): Option<string> {
    if v.Str? then Some(v.s) else None
  }
}
