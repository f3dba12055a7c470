/** The values a Go map[string]any holds after JSON was decoded into it, or while it is
    being rendered. */
module Values {

  /** Numbers keep their exact text (json.Number). */
  datatype Value =
    | Null
    | Bool(b: bool)
    | Num(text: string)
    | Str(s: string)
    | Arr(elems: seq<Value>)
    | Obj(members: map<string, Value>)

  type Fields = map<string, Value>
}
