/** The redaction rule set: the public properties of the Integration. */
module Config {
  import opened Values

  /** One entry of a body-field path specification. `Leaf(name)` is a field
      to mask (a list entry whose value is the field name); `Nest(name, sub)`
      is a `'name' => [...]` entry that descends into the sub-array `name`. */
  datatype PathItem = Leaf(name: Key) | Nest(name: Key, sub: seq<PathItem>)

  datatype Config = Config(
    httpMethodsWithRequestBody: seq<string>,
    stripHeaders: seq<string>,
    piiHeaders: seq<string>,
    piiBodyFields: map<string, seq<PathItem>>,
    piiReplaceText: Option<string>)  // the property is `string|null`

  /** The defaults the Integration class declares. */
  const Default: Config := Config(
    ["POST", "PUT", "PATCH"],
    ["cookie", "set-cookie"],
    ["authorization", "remote_addr"],
    map[],
    Some("[Filtered PII]"))

  /** The value written over a masked header or body field. */
  function Placeholder(cfg: Config): (v: Value)
    ensures !v.Arr?
    ensures v == Null <==> cfg.piiReplaceText.None?
  {
    match cfg.piiReplaceText
    case Some(t) => Str(t)
    case None => Null
  }
}
