/** The contract wrapper of commons/swagger.ts: discovery of every definition
    a request or response body uses, directly or through property references,
    plus the title and version helpers.

    Discovery walks the bodies in a fixed order (paths, then verbs, then the
    request body before the responses, then responses by status code). A body
    whose `application/json` schema carries a `$ref` names a root definition:
    the last `/`-segment of the reference. Each newly listed definition is then
    expanded property by property: an `array` property contributes its
    `items.$ref`, any other property its own `$ref`.

    Unlike the source, expansion recurses into a referenced definition only
    when it was newly appended to the list. The source recurses even when the
    name is already listed, so a self- or mutually-referencing schema never
    bottoms out; SwaggerAsWritten models that behaviour. */
module Swagger {
  import opened Wrappers
  import opened Seqs
  import opened Strings
  import opened Schema

  /** `getObjectDefinitionByName(name)` followed by `Object.keys(definition.properties)`:
      the properties of a definition, or the TypeError reading them throws. */
  function PropertiesOf(schemas: map<string, Definition>, name: string): (r: Result<seq<(string, PropSchema)>, Error>)
    ensures r.Success? <==> name in schemas && schemas[name].properties.Some?
    ensures r.Success? ==> r.value == schemas[name].properties.value
    ensures r.Failure? && name !in schemas ==> r.error == UndefinedDefinition(name)
    ensures r.Failure? && name in schemas ==> r.error == MissingProperties
  {
    if name !in schemas then Failure(UndefinedDefinition(name))
    else match schemas[name].properties
      case None => Failure(MissingProperties)
      case Some(ps) => Success(ps)
  }

  /** The reference one property carries: `items.$ref` for an `array`
      property (reading `items` of an array without items throws), the
      property's own `$ref` otherwise; an absent or empty reference is none. */
  function PropertyRef(p: PropSchema): (r: Result<Option<string>, Error>)
    ensures r.Failure? <==> p.typ == Some("array") && p.items.None?
    ensures r.Failure? ==> r.error == MissingItems
    ensures r.Success? && r.value.Some? ==> r.value.value != ""
    ensures r.Success? && p.typ == Some("array") ==> r.value == NonEmpty(p.items.value.ref)
    ensures r.Success? && p.typ != Some("array") ==> r.value == NonEmpty(p.ref)
  {
    if p.typ == Some("array") then
      if p.items.None? then Failure(MissingItems) else Success(NonEmpty(p.items.value.ref))
    else Success(NonEmpty(p.ref))
  }

  /** The definition name a property points at, when it points at one with a
      non-empty last segment. */
  function RefTarget(p: PropSchema): Option<string> {
    match PropertyRef(p)
    case Success(Some(ref)) => if LastSegment(ref) != "" then Some(LastSegment(ref)) else None
    case _ => None
  }

  /** Definition `a` has a property that refers to definition `b`. */
  ghost predicate Edge(schemas: map<string, Definition>, a: string, b: string) {
    && PropertiesOf(schemas, a).Success?
    && exists i :: 0 <= i < |PropertiesOf(schemas, a).value|
                   && RefTarget(PropertiesOf(schemas, a).value[i].1) == Some(b)
  }

  /** `content['application/json'].schema.$ref` of a request body or response:
      none unless the body has JSON content; a JSON entry without a schema
      throws; an absent or empty `$ref` is none. */
  function BodyRef(b: Body): (r: Result<Option<string>, Error>)
    ensures r.Failure? <==> b.content.Some? && Json in b.content.value && b.content.value[Json].schema.None?
    ensures r.Success? && r.value.Some? ==>
              && b.content.Some? && Json in b.content.value
              && b.content.value[Json].schema.Some?
              && b.content.value[Json].schema.value.ref == r.value
              && r.value.value != ""
    ensures b.content.Some? && Json in b.content.value && b.content.value[Json].schema.Some? ==>
              r == Success(NonEmpty(b.content.value[Json].schema.value.ref))
    ensures !(b.content.Some? && Json in b.content.value) ==> r == Success(None)
  {
    if b.content.Some? && Json in b.content.value then
      match b.content.value[Json].schema
      case None => Failure(MissingSchema)
      case Some(s) => Success(NonEmpty(s.ref))
    else Success(None)
  }

  /** The root definition name a body contributes, if any: the last
      `/`-segment of the reference its JSON schema carries. */
  function RootName(b: Body): (r: Option<string>)
    ensures r.Some? <==> BodyRef(b).Success? && BodyRef(b).value.Some?
    ensures r.Some? ==>
              var ref := BodyRef(b).value.value;
              && '/' !in r.value
              && |r.value| <= |ref| && ref[|ref| - |r.value|..] == r.value
              && (|r.value| < |ref| ==> ref[|ref| - |r.value| - 1] == '/')
  {
    match BodyRef(b)
    case Success(Some(ref)) => Some(LastSegment(ref))
    case _ => None
  }

  /** The root names of a list of bodies. */
  ghost function RootNames(bodies: seq<Body>): set<string> {
    set b | b in bodies && RootName(b).Some? :: RootName(b).value
  }

  /** The request body (if any) of an operation, then its responses in status-code order. */
  function OperationBodies(op: Operation): (r: seq<Body>)
    ensures |r| == (if op.requestBody.Some? then 1 else 0) + (if op.responses.Some? then |op.responses.value| else 0)
    ensures op.requestBody.Some? ==> |r| >= 1 && r[0] == op.requestBody.value
    ensures op.responses.Some? ==>
              var offset := |r| - |op.responses.value|;
              offset >= 0 && forall k :: 0 <= k < |op.responses.value| ==> r[offset + k] == op.responses.value[k].1
  {
    var request := if op.requestBody.Some? then [op.requestBody.value] else [];
    var responses := if op.responses.Some? then op.responses.value else [];
    request + seq(|responses|, k requires 0 <= k < |responses| => responses[k].1)
  }

  /** The bodies of the verbs of one path item, verb by verb. */
  function VerbBodies(verbs: seq<(string, Operation)>): (r: seq<Body>)
    ensures |verbs| > 0 ==> OperationBodies(verbs[0].1) <= r
    decreases |verbs|
  {
    if |verbs| == 0 then [] else OperationBodies(verbs[0].1) + VerbBodies(verbs[1..])
  }

  /** The bodies of all paths, path by path: the order in which the
      constructor visits them. */
  function PathBodies(paths: seq<(string, seq<(string, Operation)>)>): (r: seq<Body>)
    ensures forall b :: b in r <==> exists k :: 0 <= k < |paths| && b in VerbBodies(paths[k].1)
    decreases |paths|
  {
    if |paths| == 0 then [] else
      var rest := PathBodies(paths[1..]);
      assert forall k :: 1 <= k < |paths| ==> paths[k] == paths[1..][k - 1];
      VerbBodies(paths[0].1) + rest
  }

  /** The number of definitions not yet listed: it bounds the recursion. */
  function Unvisited(schemas: map<string, Definition>, acc: seq<string>): nat {
    |schemas.Keys - Elems(acc)|
  }

  lemma {:induction false} UnvisitedShrinks(schemas: map<string, Definition>, acc: seq<string>, n: string)
    requires n in schemas && n !in acc
    ensures Unvisited(schemas, acc + [n]) < Unvisited(schemas, acc)
  {
    assert schemas.Keys - Elems(acc + [n]) == (schemas.Keys - Elems(acc)) - {n};
  }

  lemma {:induction false} UnvisitedNoLarger(schemas: map<string, Definition>, a: seq<string>, b: seq<string>)
    requires a <= b
    ensures Unvisited(schemas, b) <= Unvisited(schemas, a)
  {
    SubsetCard(schemas.Keys - Elems(b), schemas.Keys - Elems(a));
  }

  /** Expands properties `i..` of a listed definition: each referenced name
      that is not yet listed is appended and then expanded in turn, before the
      next property is looked at. */
  function ExpandProps(schemas: map<string, Definition>, props: seq<(string, PropSchema)>, i: nat, acc: seq<string>)
    : (r: Result<seq<string>, Error>)
    requires i <= |props|
    ensures r.Success? ==> acc <= r.value
    ensures r.Success? && NoDup(acc) ==> NoDup(r.value)
    decreases Unvisited(schemas, acc), |props| - i
  {
    if i == |props| then Success(acc)
    else
      var ref :- PropertyRef(props[i].1);
      if ref.None? then ExpandProps(schemas, props, i + 1, acc)
      else
        var n := LastSegment(ref.value);
        if n == "" || n in acc then ExpandProps(schemas, props, i + 1, acc)
        else
          var ps :- PropertiesOf(schemas, n);
          UnvisitedShrinks(schemas, acc, n);
          var acc' :- ExpandProps(schemas, ps, 0, acc + [n]);
          UnvisitedNoLarger(schemas, acc, acc');
          ExpandProps(schemas, props, i + 1, acc')
  }

  /** Records the root a body names, if it is new, and expands it. */
  function ExtractRefDefinition(schemas: map<string, Definition>, b: Body, acc: seq<string>): (r: Result<seq<string>, Error>)
    ensures r.Success? ==> acc <= r.value
    ensures r.Success? && NoDup(acc) ==> NoDup(r.value)
    ensures r.Success? && RootName(b).Some? ==> RootName(b).value in r.value
    ensures r.Success? && RootName(b).None? ==> r.value == acc
  {
    var ref :- BodyRef(b);
    if ref.None? then Success(acc)
    else
      var n := LastSegment(ref.value);
      if n in acc then Success(acc)
      else
        var ps :- PropertiesOf(schemas, n);
        var r := ExpandProps(schemas, ps, 0, acc + [n]);
        assert r.Success? ==> (acc + [n])[|acc|] == r.value[|acc|];
        r
  }

  /** Processes the bodies in order, threading the definition list. */
  function DiscoverFrom(schemas: map<string, Definition>, bodies: seq<Body>, acc: seq<string>): (r: Result<seq<string>, Error>)
    ensures r.Success? ==> acc <= r.value
    ensures r.Success? && NoDup(acc) ==> NoDup(r.value)
    decreases |bodies|
  {
    if |bodies| == 0 then Success(acc)
    else
      var acc' :- ExtractRefDefinition(schemas, bodies[0], acc);
      DiscoverFrom(schemas, bodies[1..], acc')
  }

  /** The constructor's discovery followed by `getDefinitionNames()`. */
  function DefinitionNames(doc: Document): (r: Result<seq<string>, Error>)
    ensures r.Success? ==> NoDup(r.value)
  {
    DiscoverFrom(doc.schemas, PathBodies(doc.paths), [])
  }

  /** `getTitleLowerCase()`. */
  function TitleLowerCase(doc: Document): (r: string)
    ensures |r| == |doc.info.title|
    ensures forall k :: 0 <= k < |r| ==> !('A' <= r[k] <= 'Z')
    ensures forall k :: 0 <= k < |r| ==> r[k] == LowerChar(doc.info.title[k])
    ensures ToLower(r) == r
  {
    ToLowerIdempotent(doc.info.title);
    ToLower(doc.info.title)
  }

  /** `getMajorVersion()`: the version up to its first `.`. */
  function MajorVersion(doc: Document): (r: string)
    ensures r <= doc.info.version
    ensures '.' !in r
    ensures |r| < |doc.info.version| ==> doc.info.version[|r|] == '.'
  {
    FirstSegment(doc.info.version, '.')
  }
}
