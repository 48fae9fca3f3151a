# GenerAPI Quarkus core, in Dafny

GenerAPI turns an OpenAPI 3 contract into a Quarkus project skeleton. This
project models its two pure pieces and proves properties of them.

- **Definition discovery** (`commons/swagger.ts`). At construction the `Swagger`
  class visits path by path, then verb by verb, then the request body, then
  the responses in status-code order. Each body whose `application/json`
  schema carries a `$ref` names a root definition: the last `/`-segment of
  the reference. From each root, references are followed through the
  properties. An `array` property contributes its `items.$ref`; any other
  property contributes its own `$ref`. The result is the insertion-ordered,
  duplicate-free list `getDefinitionNames()` returns. The title and
  major-version helpers come with it.
- **Type mapping and model rendering** (`generators/quarkus.ts`,
  `constants/quarkus-constants.ts`). `searchDataType` maps a property schema
  to a Java type. It takes the first of six rules that applies: simple
  format, complex format, default by type, recursive `array`, the `$ref`'s
  last segment, or no type at all. Along the way it threads an accumulator of
  the complex types that need an import. `createParameters` renders one
  annotated field per property. `createModeImports` turns the accumulator into
  import lines.

Four of the `TypeError`s the source can throw become `Result.Failure` values
in the model, with these `Schema.Error` kinds:

- `UndefinedDefinition`: a definition that does not exist.
- `MissingProperties`: a definition without `properties`.
- `MissingItems`: an `array` without `items`.
- `MissingSchema`: a JSON body without a schema.

The other `TypeError`s the source can throw come from values the model's
types rule out; "## Left out" lists them.

A template hole filled with `undefined` prints the text `undefined`.
Object keys keep their declaration order, so properties, paths, verbs and
responses are sequences of pairs.

Files:

- `wrappers.dfy`: `Option` and `Result`.
- `seqs.dfy`: duplicate-free lists and the guarded append.
- `strings.dfy`: `split`, `join`, last and first segment, ASCII `toLowerCase`,
  and reading a block of lines back.
- `schema.dfy`: the contract datatypes.
- `quarkus_constants.dfy`: the four lookup tables.
- `swagger.dfy`: discovery.
- `swagger_lemmas.dfy`: closure, reachability, order and totality of discovery.
- `swagger_cycles.dfy`: the recursion as the source writes it, and cyclic
  schemas under the model.
- `quarkus.dfy`: type mapping, fields, imports and their properties.
- `account_example.dfy`: a one-path contract run end to end, and an array of
  arrays of a reference.

Discovery deliberately departs from the source in one respect (see
"## Findings"). The source recurses into every referenced definition at
commons/swagger.ts:70, even one already listed. The model recurses only into
a name it has just appended. Termination then follows from the finite set of
schema names.

Three behaviours of the code that the model keeps as they are:

- Only the `application/json` media type is read. There is no vendor
  media-type preference.
- A property no rule maps gets the type `undefined`, rendered as the text
  `undefined`. It is not a fatal error.
- `number` maps to `BigDecimal`, but `BigDecimal` is never recorded for
  import. The model template imports no `java.math` class, so a model with
  a `number` property declares a `BigDecimal` field without its import.

An array of arrays of a `$ref` maps to `List <List <Name>>`, but discovery
reads only the outer array's `items.$ref`, so `Name` is not discovered
through that property (`NestedArrayExample.NestedRefNotFollowed`).

## Model

| member | source | states |
|---|---|---|
| `Seqs.AddIfNew` | generators/quarkus.ts:163-167 | appends the type only when it is non-empty and not yet present; the result extends the list, stays duplicate-free, and equals the input for a present or empty type |
| `Schema.Render` | generators/quarkus.ts:125-129 | a present value prints as itself, an absent one as `undefined` |
| `Schema.NonEmpty` | commons/swagger.ts:67 | a reference counts only when it is present and not the empty string |
| `Strings.LastSegment` | commons/swagger.ts:47-48 | the last `/`-piece of a reference: a suffix with no `/`, preceded by `/` whenever it is shorter than the reference |
| `Strings.LastSegmentOfPath` | commons/swagger.ts:68 | `#/components/schemas/Name` and any other `prefix/Name` with a `/`-free name yield `Name` |
| `Strings.Split` | commons/swagger.ts:47 | `split` yields at least one piece and no piece holds the separator; with `Join` it forms the round trip below |
| `Strings.ToLower` | commons/swagger.ts:103 | the result has the input's length; each upper-case ASCII letter becomes its lower-case letter and every other character is kept |
| `Strings.SplitJoin` | commons/swagger.ts:47 | splitting a join of separator-free pieces gives back the pieces, so `split` is inverse to `join` |
| `Strings.JoinSplit` | commons/swagger.ts:47 | joining the pieces of a split gives back the string |
| `QuarkusConstants.FormatTablesDisjoint` | constants/quarkus-constants.ts:1-11 | no format is in both the simple and the complex table, so the first two mapping rules never compete |
| `QuarkusConstants.ComplexTypesHaveImports` | constants/quarkus-constants.ts:7-23 | the complex types are exactly `LocalDate`, `LocalDateTime` and `List`, and each has an import line |
| `QuarkusConstants.ArrayHasNoDefault` | constants/quarkus-constants.ts:7-17 | `array` has no default type but is a complex format mapping to `List`, so the recursive array rule is reachable |
| `QuarkusConstants.ImportLinesAreImports` | constants/quarkus-constants.ts:18-23 | every import line starts with `import ` and holds no line break |
| `QuarkusConstants.ImportsDistinct` | constants/quarkus-constants.ts:18-23 | distinct types have distinct import lines |
| `Swagger.PropertiesOf` | commons/swagger.ts:81-88 | the properties of a definition, in key order; an unknown name or a definition without properties fails |
| `Swagger.PropertyRef` | commons/swagger.ts:59-67 | an `array` property refers through `items.$ref` (failing when `items` is absent); any other property refers through its own `$ref`; a reference is never empty |
| `Swagger.BodyRef` | commons/swagger.ts:24-46 | with `application/json` content and a schema, a body yields the schema's `$ref` when it is present and non-empty, and none otherwise; JSON content without a schema fails; a body without JSON content yields none |
| `Swagger.RootName` | commons/swagger.ts:45-48 | a body has a root exactly when it yields a reference; the root is the reference's last `/`-segment: a `/`-free suffix preceded by `/` whenever it is shorter than the reference |
| `Swagger.OperationBodies` | commons/swagger.ts:23-41 | an operation's request body comes first, then every response in status-code order; there is one body per request body and per response |
| `Swagger.VerbBodies` | commons/swagger.ts:15-19 | a path item's bodies start with those of its first verb |
| `Swagger.PathBodies` | commons/swagger.ts:12-20 | a body is among the contract's bodies exactly when it is among the bodies of one of its paths |
| `Swagger.ExpandProps` | commons/swagger.ts:56-79 | expansion of a listed definition only appends, and keeps the list duplicate-free |
| `Swagger.ExtractRefDefinition` | commons/swagger.ts:44-54 | a body's root is listed after the call, and a body with no root leaves the list unchanged; the list only grows and stays duplicate-free |
| `Swagger.DiscoverFrom` | commons/swagger.ts:11-21 | bodies are processed in order, the list only growing and staying duplicate-free |
| `Swagger.DefinitionNames` | commons/swagger.ts:5-9 | the discovered list is duplicate-free |
| `Swagger.TitleLowerCase` | commons/swagger.ts:102-104 | each character of the result is the title's character at that place, lower-cased; the result has no upper-case letter, and lower-casing it again changes nothing |
| `Swagger.MajorVersion` | commons/swagger.ts:110-112 | the version up to its first `.`, or the whole version when it has none |
| `SwaggerLemmas.ExpandPropsClosed` | commons/swagger.ts:56-72 | after expansion, every property's target is listed and every newly listed definition has all its targets listed |
| `SwaggerLemmas.DiscoverClosed` | commons/swagger.ts:11-54 | processing bodies keeps the list closed under references and lists every body's root |
| `SwaggerLemmas.DefinitionNamesClosed` | commons/swagger.ts:49-72 | every listed definition exists and every definition it refers to is listed, and every root of every body is listed |
| `SwaggerLemmas.ExpandPropsJustified` | commons/swagger.ts:56-72 | each name expansion appends is referred to by a name listed before it |
| `SwaggerLemmas.JustifiedReachable` | commons/swagger.ts:44-72 | a list where each name is a root or referred to by an earlier name holds only names reachable from a root |
| `SwaggerLemmas.DefinitionNamesReachable` | commons/swagger.ts:11-79 | every listed name is reachable from a root along property references |
| `SwaggerLemmas.DiscoverAppend` | commons/swagger.ts:13-20 | processing two runs of bodies is processing the first, then the second from where it stopped |
| `SwaggerLemmas.VerbBodiesMembers` | commons/swagger.ts:15-19 | a body is among a path item's bodies exactly when it is among the bodies of one of its verbs |
| `SwaggerLemmas.VerbBodiesSplit` | commons/swagger.ts:15-19 | the bodies of a path item's first k verbs come before those of the remaining verbs |
| `SwaggerLemmas.EarlierPathsFirst` | commons/swagger.ts:11-21 | the names found on the first k paths form a prefix of the full list, so roots appear in path order |
| `SwaggerLemmas.ExpandPropsTotal` | commons/swagger.ts:56-88 | expanding a definition reachable from the roots cannot fail when every reachable definition exists, has properties, and refers only to defined names |
| `SwaggerLemmas.DiscoverTotal` | commons/swagger.ts:11-54 | under the same hypothesis on reachable definitions, processing bodies whose schemas are present and whose roots are among the roots cannot fail |
| `SwaggerLemmas.WellFormedResolves` | commons/swagger.ts:11-88 | a contract whose bodies all have schemas, and whose definitions reachable from the bodies' roots exist and refer only to defined names, is discovered without error; unreachable definitions may be broken |
| `SwaggerLemmas.WellFormedReachable` | commons/swagger.ts:81-88 | when every definition has resolvable properties and every root is defined, the hypothesis on reachable definitions holds |
| `SwaggerAsWritten.Secondary` | commons/swagger.ts:56-79 | the walk as written, with a recursion bound: when it returns, it has only appended |
| `SwaggerAsWritten.SelfReferenceNeverReturns` | commons/swagger.ts:67-70 | for a definition whose property refers to itself, the walk as written exhausts any recursion bound |
| `SwaggerAsWritten.NodeNeverReturns` | commons/swagger.ts:69-70 | `Node` with `next: {$ref: '#/components/schemas/Node'}` never finishes expanding |
| `SwaggerCycles.SelfReferenceResolves` | commons/swagger.ts:67-70 | the same self-referencing definition expands, under the model, to itself listed once |
| `SwaggerCycles.MutualReferenceResolvesOnce` | commons/swagger.ts:44-79 | two definitions referring to each other are both discovered, each exactly once, and nothing else is |
| `SwaggerCycles.AccountHolderResolvesOnce` | commons/swagger.ts:44-79 | `Account` and `Holder`, referring to each other, are each listed exactly once |
| `Quarkus.Get` | generators/quarkus.ts:135 | a lookup finds a value only for a present key of the table |
| `Quarkus.SearchDataType` | generators/quarkus.ts:134-161 | mapping fails only on an array without items; the accumulator only grows, stays duplicate-free, and gains only complex types (the type each rule gives is stated by the lemmas below) |
| `Quarkus.TypeIgnoresAccumulator` | generators/quarkus.ts:134-161 | the mapped type, and whether mapping fails, do not depend on the accumulator passed in |
| `Quarkus.ImportsAreNeededAdded` | generators/quarkus.ts:140-166 | the accumulator after mapping is the one before with the schema's needed types added one by one, skipping those present; `List` comes before any type of the items |
| `Quarkus.SimpleFormatWins` | generators/quarkus.ts:135-138 | a simple format gives the table's type and leaves the accumulator unchanged, whatever the type or reference say |
| `Quarkus.ComplexFormatRecorded` | generators/quarkus.ts:140-144 | a complex format gives the table's type, appended to the accumulator only if absent |
| `Quarkus.DefaultsRecordNothing` | generators/quarkus.ts:146-149 | with no format match, a default type applies and records nothing; `number` gives `BigDecimal` |
| `Quarkus.BigDecimalNeverRecorded` | generators/quarkus.ts:134-167 | no mapping records `BigDecimal`, although it has an import line |
| `Quarkus.ArrayRule` | generators/quarkus.ts:151-154 | with no format or default rule applying, an `array` without `items` fails; with `items` it succeeds exactly when the items map, to `List <T>` where `T` is the type the items map to on their own, and `List` is recorded |
| `Quarkus.RefOrNothing` | generators/quarkus.ts:156-160 | with no other rule applying, a non-empty `$ref` gives its last segment and an absent one gives no type; neither records anything |
| `Quarkus.NestedArrayType` | generators/quarkus.ts:151-154 | nested arrays of a primitive map to the nested `List <…>` type and, once `List` is listed, record nothing more |
| `Quarkus.NestedArrayListOnce` | generators/quarkus.ts:151-154 | from an empty accumulator, nested arrays of a primitive record `List` exactly once at any depth |
| `Quarkus.CreateFields` | generators/quarkus.ts:120-130 | the fields are the reference fields (`ModelFields`: per property, in key order, its name, required flag, description, example and the type it maps to on its own); the accumulator ends as the old one with every needed type of every property added once, in order; fails exactly when some property fails to map |
| `Quarkus.CreateParameters` | generators/quarkus.ts:118-131 | succeeds exactly when the definition has properties and all of them map; the text is the field block of the reference fields and the accumulator gains every needed type once; a definition without properties fails |
| `Quarkus.RequiredFlags` | generators/quarkus.ts:127 | a field is marked required exactly when the definition's `required` list names its property; with no list, none is |
| `Quarkus.FieldLines` | generators/quarkus.ts:125-129 | four lines per field; when the field's values hold no line break, neither does any of its lines |
| `Quarkus.RenderFields` | generators/quarkus.ts:119-131 | the block is empty exactly when there are no fields; read back line by line, the block of single-line fields is an empty line, then per field, in order, `@NotBlank`, the `@Schema` line, the declaration and the trailing indentation |
| `Quarkus.CreateModeImports` | generators/quarkus.ts:89-97 | read back line by line, the import block is an empty line followed by one import line per accumulated type, in accumulator order |
| `Quarkus.ImportLineSingle` | generators/quarkus.ts:94-95 | an import line is the type's import statement followed by `;`, on one line |
| `Quarkus.ImportLinesWellFormed` | generators/quarkus.ts:89-97 | the import lines of distinct importable types are distinct Java import statements |
| `Quarkus.ImportBlockWellFormed` | generators/quarkus.ts:89-97 | for an accumulator of distinct complex types, every line after the first, empty one is a distinct import statement |
| `Quarkus.RenderModel` | generators/quarkus.ts:68-87 | succeeds exactly when the name is defined, has properties, and its fields can be created; the model's name carries the suffix, its field block is that of the reference fields, its import block is that of the types the properties need, each once, and every import line is a distinct import statement |
| `Quarkus.RenderModels` | generators/quarkus.ts:68-87 | the model loop fails only when some listed name fails to render; on success there is one model per name, in list order, each the one that name renders |
| `AccountExample.AccountDiscovered` | commons/swagger.ts:11-54 | a contract whose one `GET` answers with `Account` discovers exactly `[Account]` |
| `AccountExample.AccountFields` | generators/quarkus.ts:118-161 | `id: string` and `balance: number` become `String` and `BigDecimal` fields and record nothing |
| `AccountExample.AccountModel` | generators/quarkus.ts:78-97 | the `Account` response model is named `AccountResponse` and has an empty import block |
| `NestedArrayExample.NestedRefNotFollowed` | commons/swagger.ts:62-66 | an array of arrays of a `$ref` carries no reference for discovery, yet maps to `List <List <Name>>` with only `List` recorded |

## Left out

- `commons/folder-manager.ts`: template instantiation, zipping and folder deletion are file-system I/O through foreign libraries.
- `make`, `createStructure` and `createModel` (generators/quarkus.ts:41-66, 101-115): asynchronous template writes. `RenderModel` models only the model loop's body, without the write.
- `createRequestModels` and `createResponseModels` call `getRequestDefinitions` and `getResponseDefinitions`, which `commons/swagger.ts` does not define. `RenderModels` instead takes a list of names, such as the discovered one.
- `createResource` and `createService`: empty stubs. No operation identifiers, media-type selection or resource methods are modelled.
- The controllers, `app.ts` and the middlewares: HTTP routing, headers, and base64/YAML decoding.
- The `console.log` calls in `createModeImports`: output only.
- The tables at generators/quarkus.ts:9-31 are identical to those in `constants/quarkus-constants.ts`. They are modelled once.
- JavaScript lists integer-like object keys (status codes) in ascending order first. The model takes the sequence order as the key order.
- A path item's non-verb keys (`parameters`, `summary`) have no body in the source. The model only represents operations.
- A contract without `components.schemas` throws when a definition is first looked up. The model treats it as an empty schema map, so the lookup fails with `UndefinedDefinition` instead.
- Swagger.ExpandProps: a reference whose last segment is empty (one ending in `/`) is skipped. The source instead looks up a definition named by the empty string, which throws unless the contract defines one.
- Swagger.TitleLowerCase: lower-cases ASCII letters only. `toLowerCase` also maps non-ASCII letters, and Unicode case mapping is not modelled.
- SwaggerAsWritten.Secondary: the recursion bound stands for the JavaScript call stack. `None` means the bound was exhausted, where the source throws a stack-overflow `RangeError` out of the constructor.
- TypeErrors from missing or mistyped values: a contract without `paths` (commons/swagger.ts:91); an `info.title` or `info.version` that is absent or not a string, such as the number a YAML `version: 1.0` parses to (commons/swagger.ts:103, 111); a `null` response object (commons/swagger.ts:36); a `null` property (commons/swagger.ts:62). The model's `Document`, `Info`, `Body` and `PropSchema` types always hold these values, so none of these throws is modelled.
- A `description` or `example` that is not a string prints through JavaScript's string conversion. The model takes both as optional strings.
- `addComplexFormatType` ignores an undefined type (generators/quarkus.ts:164). The array rule always passes `List`, so that branch is never taken. `Seqs.AddIfNew` keeps the guard for the empty string.

## Findings

| source | as written | input that shows it | evidently intended | confidence | as-written member | corrected member |
|---|---|---|---|---|---|---|
| commons/swagger.ts:69-70 | after the guarded push, the walk recurses into the referenced definition whether or not it was already listed, so a cycle recurses until the call stack overflows and the constructor throws a `RangeError` | a definition `Node` with property `next: {$ref: '#/components/schemas/Node'}`, used by any response | recurse only into a name that was just appended, so cycles end and each definition is expanded once | high, not executed | `SwaggerAsWritten.SelfReferenceNeverReturns` | `Swagger.ExpandProps` |
