/** JSON-friendly values: what `json.dumps` accepts (scalars, lists, string-keyed dicts). */
module Json {

  datatype Value =
    | Null
    | Num(n: int)
    | Str(s: string)
    | Arr(items: seq<Value>)
    | Obj(fields: map<string, Value>)
}
