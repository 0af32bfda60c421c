/** JSON values. An object is a map, so the order of its keys is not part of the value; numbers are
    the ones JavaScript prints as plain integers. */
module Json {
  import opened CodeUnits

  datatype Value =
    | Null
    | Bool(b: bool)
    | Number(n: int)
    | String(s: Text)
    | Array(items: seq<Value>)
    | Object(fields: map<Text, Value>)
}
