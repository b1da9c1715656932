/** The JSON values the WordPress REST API returns, as a tree. */
module Json {

  /** A parsed JSON value. Numbers are kept as reals; their floating-point
      behaviour plays no part in the exporter's logic. */
  datatype Json =
    | Null
    | Bool(b: bool)
    | Number(n: real)
    | Str(s: string)
    | Array(items: seq<Json>)
    | Object(members: map<string, Json>)
}
