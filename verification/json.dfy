/** The JSON value a request body parses to. Objects are modelled after
    parsing, so a key occurs at most once (a repeated key keeps its last value). */
module Json {

  datatype Value =
    | Null
    | Bool(b: bool)
    | Number(n: real)
    | Str(s: string)
    | Array(items: seq<Value>)
    | Object(fields: map<string, Value>)
}
