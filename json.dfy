/** The JSON values that make up the configuration document the Syncthing REST
    endpoint returns and accepts. */
module Json {

  import opened Wrappers

  /** A JSON value. Objects are keyed maps: the endpoint reads them by name, so
      the order of members carries no meaning. */
  datatype Value =
    | Null
    | Bool(b: bool)
    | Int(i: int)
    | Str(s: string)
    | Array(items: seq<Value>)
    | Object(members: map<string, Value>)

  /** Python truthiness of an optional string parameter: it is given and not empty. */
  predicate Truthy(o: Option<string>)
  {
    o.Some? && o.value != ""
  }

  /** An optional string parameter copied into a record: `None` becomes JSON null. */
  function OptionalString(o: Option<string>): Value
  {
    match o
    case Some(s) => Str(s)
    case None => Null
  }

}
