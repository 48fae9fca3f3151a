/** The parsed OpenAPI contract, as far as the generator reads it.
    A JSON object whose keys are enumerated is an association list in key
    order; a key that may be `undefined` is an `Option`. */
module Schema {
  import opened Wrappers

  /** A schema object: a definition's property, an array's `items`, or the
      schema of a request or response body. */
  datatype PropSchema = PropSchema(
    typ: Option<string>,          // `type`
    format: Option<string>,       // `format`
    items: Option<PropSchema>,    // `items`
    ref: Option<string>,          // `$ref`
    description: Option<string>,
    example: Option<string>)

  /** A named definition under `components.schemas`. */
  datatype Definition = Definition(
    properties: Option<seq<(string, PropSchema)>>,
    required: Option<seq<string>>)

  /** One entry of a `content` object. */
  datatype MediaType = MediaType(schema: Option<PropSchema>)

  /** A request body or one response: its `content` object, keyed by media type. */
  datatype Body = Body(content: Option<map<string, MediaType>>)

  /** One verb of a path item. */
  datatype Operation = Operation(
    requestBody: Option<Body>,
    responses: Option<seq<(string, Body)>>)   // keyed by status code

  datatype Info = Info(title: string, version: string)

  datatype Document = Document(
    info: Info,
    paths: seq<(string, seq<(string, Operation)>)>,   // path -> verb -> operation
    schemas: map<string, Definition>)                 // components.schemas

  /** The only media type whose schema the generator inspects. */
  const Json: string := "application/json"

  /** What the source throws, each a TypeError on reading a field of `undefined`. */
  datatype Error =
    | UndefinedDefinition(name: string)   // `components.schemas[name]` is undefined
    | MissingProperties                   // the definition has no `properties`
    | MissingSchema                       // a JSON body has no `schema`
    | MissingItems                        // an `array` schema has no `items`

  /** `${v}` in a template literal: an undefined value prints as "undefined". */
  function Render(v: Option<string>): string {
    match v
    case Some(s) => s
    case None => "undefined"
  }

  /** A `$ref` that a JavaScript truthiness test accepts: present and non-empty. */
  function NonEmpty(v: Option<string>): (r: Option<string>)
    ensures r.Some? <==> v.Some? && v.value != ""
    ensures r.Some? ==> r == v
  {
    if v.Some? && v.value != "" then v else None
  }
}
