/** Decoded configuration values: what the JSON, YAML and TOML decoders produce. */
module Values {
  import opened Types

  /** `Number` is the text of a json.Number; `Native` is a number already of a Go kind. */
  datatype Value =
    | Null
    | Bool(b: bool)
    | Number(text: string)
    | Native(kind: Kind, num: real)
    | Text(s: string)
    | List(items: seq<Value>)
    | Object(entries: map<string, Value>)
}
