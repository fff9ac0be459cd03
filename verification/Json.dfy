/**
 A decoded JSON document, as encoding/json leaves it in an "any". Go's nil stands for both
 the JSON null and an absent field, so Null does here too.
 */
module Json {

  datatype Value =
    | Null
    | Bool(b: bool)
    | Num(n: real)
    | Str(s: string)
    | Arr(items: seq<Value>)
    | Obj(fields: map<string, Value>)

  /** obj[key] in Go: the zero value nil when the key is missing. */
  function Lookup(fields: map<string, Value>, key: string): Value {
    if key in fields then fields[key] else Null
  }

  /**
   fmt.Sprintf("%v", v). The rendering of anything but a string is a library matter and
   comes in as a parameter.
   */
  function Sprint(render: Value -> string, v: Value): string {
    if v.Str? then v.s else render(v)
  }
}
