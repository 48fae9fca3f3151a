/** The pure part of generators/quarkus.ts: mapping a property schema to a
    Java type while collecting the complex types that need an import, and
    rendering a model's fields and import lines. */
module Quarkus {
  import opened Wrappers
  import opened Seqs
  import opened Strings
  import opened Schema
  import opened QuarkusConstants

  /** The mapped Java type (None when no rule applies: `undefined` in the
      source) and the complex-type accumulator after the mapping. */
  datatype Mapping = Mapping(javaType: Option<string>, imports: seq<string>)

  /** `table.get(key)`, where an undefined key finds nothing. */
  function Get(table: map<string, string>, key: Option<string>): (r: Option<string>)
    ensures r.Some? <==> key.Some? && key.value in table
    ensures r.Some? ==> r.value == table[key.value]
  {
    if key.Some? && key.value in table then Some(table[key.value]) else None
  }

  /** `searchDataType`: the first rule that applies wins —
      simple format, complex format (recorded for import), default by type,
      `array` (recorded for import, then the items mapped recursively),
      the last segment of `$ref`, and otherwise no type. */
  function SearchDataType(p: PropSchema, acc: seq<string>): (r: Result<Mapping, Error>)
    ensures r.Failure? ==> r.error == MissingItems
    ensures r.Success? ==> acc <= r.value.imports
    ensures r.Success? && NoDup(acc) ==> NoDup(r.value.imports)
    ensures r.Success? ==> forall k :: |acc| <= k < |r.value.imports| ==>
                             r.value.imports[k] in ComplexFormatToJavaType.Values
    decreases p
  {
    var simple := Get(SimpleFormatToJavaType, p.format);
    var complex := Get(ComplexFormatToJavaType, p.format);
    var byType := Get(DefaultFormatValues, p.typ);
    if simple.Some? then Success(Mapping(simple, acc))
    else if complex.Some? then Success(Mapping(complex, AddIfNew(acc, complex.value)))
    else if byType.Some? then Success(Mapping(byType, acc))
    else if p.typ == Some("array") then
      var list := ComplexFormatToJavaType["array"];
      match p.items
      case None => Failure(MissingItems)
      case Some(items) =>
        var m :- SearchDataType(items, AddIfNew(acc, list));
        Success(Mapping(Some(list + " <" + Render(m.javaType) + ">"), m.imports))
    else if p.ref.Some? && p.ref.value != "" then Success(Mapping(Some(LastSegment(p.ref.value)), acc))
    else Success(Mapping(None, acc))
  }

  /** The type a property maps to on its own, from an empty accumulator;
      None when no rule gives it a type or its mapping fails. */
  function MappedType(p: PropSchema): Option<string> {
    match SearchDataType(p, [])
    case Success(m) => m.javaType
    case Failure(_) => None
  }

  /** Whether the definition's `required` list names the property; false
      when the list is absent. */
  predicate IsRequired(d: Definition, name: string) {
    d.required.Some? && name in d.required.value
  }

  /** One rendered field of a model class. */
  datatype Field = Field(
    name: string,
    required: bool,
    description: Option<string>,
    example: Option<string>,
    javaType: Option<string>)

  /** The field of one property, with the type it maps to on its own. */
  function FieldOf(d: Definition, prop: (string, PropSchema)): Field {
    Field(prop.0, IsRequired(d, prop.0), prop.1.description, prop.1.example, MappedType(prop.1))
  }

  /** The reference field list of a definition: one field per property, in
      key order, each property taken on its own. */
  function ModelFields(d: Definition, props: seq<(string, PropSchema)>): seq<Field> {
    seq(|props|, k requires 0 <= k < |props| => FieldOf(d, props[k]))
  }

  /** The reference import list: the complex types each property needs,
      property after property, duplicates included. */
  function NeededAll(props: seq<(string, PropSchema)>): seq<string>
    decreases |props|
  {
    if |props| == 0 then [] else ImportsNeeded(props[0].1) + NeededAll(props[1..])
  }

  /** Maps properties `i..` in key order, threading the accumulator: the
      fields are the reference fields, and the accumulator ends as the old
      one with every needed type added once. */
  function CreateFields(d: Definition, props: seq<(string, PropSchema)>, i: nat, acc: seq<string>)
    : (r: Result<(seq<Field>, seq<string>), Error>)
    requires i <= |props|
    ensures r.Failure? <==> exists k :: i <= k < |props| && SearchDataType(props[k].1, []).Failure?
    ensures r.Success? ==> r.value.0 == ModelFields(d, props[i..])
    ensures r.Success? ==> r.value.1 == AddAll(acc, NeededAll(props[i..]))
    ensures r.Success? ==> forall k :: |acc| <= k < |r.value.1| ==> r.value.1[k] in ComplexFormatToJavaType.Values
    decreases |props| - i
  {
    if i == |props| then
      assert props[i..] == [];
      Success(([], acc))
    else
      var name := props[i].0;
      var p := props[i].1;
      TypeIgnoresAccumulator(p, acc, []);
      var m :- SearchDataType(p, acc);
      var rest :- CreateFields(d, props, i + 1, m.imports);
      ModelFieldsCons(d, props, i);
      NeededAllCons(props, i);
      ImportsAreNeededAdded(p, acc);
      AddAllAppend(acc, ImportsNeeded(p), NeededAll(props[i + 1..]));
      Success(([Field(name, IsRequired(d, name), p.description, p.example, m.javaType)] + rest.0, rest.1))
  }

  lemma {:induction false} ModelFieldsCons(d: Definition, props: seq<(string, PropSchema)>, i: nat)
    requires i < |props|
    ensures ModelFields(d, props[i..]) == [FieldOf(d, props[i])] + ModelFields(d, props[i + 1..])
  {
    var a := ModelFields(d, props[i..]);
    var b := [FieldOf(d, props[i])] + ModelFields(d, props[i + 1..]);
    forall k | 0 <= k < |a| ensures a[k] == b[k] {
      if k > 0 {
        assert props[i..][k] == props[i + 1..][k - 1];
      }
    }
  }

  lemma {:induction false} NeededAllCons(props: seq<(string, PropSchema)>, i: nat)
    requires i < |props|
    ensures NeededAll(props[i..]) == ImportsNeeded(props[i].1) + NeededAll(props[i + 1..])
  {
    assert props[i..][0] == props[i] && props[i..][1..] == props[i + 1..];
  }

  /** Sixteen spaces: the indentation of the field template. */
  const Indent: string := "                "

  function Flag(b: bool): string {
    if b then "true" else "false"
  }

  /** No rendered value of a field contains a line break. */
  predicate SingleLine(f: Field) {
    && '\n' !in f.name
    && '\n' !in Render(f.description)
    && '\n' !in Render(f.example)
    && '\n' !in Render(f.javaType)
  }

  predicate AllSingleLine(fields: seq<Field>) {
    forall k :: 0 <= k < |fields| ==> SingleLine(fields[k])
  }

  /** The fixed text of the field template holds no line break. */
  lemma {:induction false} TemplateTextSingle(b: bool)
    ensures '\n' !in Indent && '\n' !in Flag(b) && '\n' !in Indent + "@NotBlank"
    ensures '\n' !in "@Schema(required = " && '\n' !in ", description = \"" && '\n' !in "\", example = \"" && '\n' !in "\")"
    ensures '\n' !in "private " && '\n' !in " " && '\n' !in ";"
  {
    SchemaTextSingle();
  }

  lemma {:induction false} SchemaTextSingle()
    ensures '\n' !in "@Schema(required = " && '\n' !in ", description = \"" && '\n' !in "\", example = \"" && '\n' !in "\")"
  {
  }

  /** The `@Schema` annotation line: the required flag, then the description
      and the example in double quotes. */
  function SchemaLine(f: Field): (l: string)
    ensures SingleLine(f) ==> '\n' !in l
  {
    TemplateTextSingle(f.required);
    Indent + "@Schema(required = " + Flag(f.required) + ", description = \"" + Render(f.description)
      + "\", example = \"" + Render(f.example) + "\")"
  }

  /** The declaration line: `private`, the mapped type and the property name. */
  function DeclarationLine(f: Field): (l: string)
    ensures SingleLine(f) ==> '\n' !in l
  {
    TemplateTextSingle(false);
    Indent + "private " + Render(f.javaType) + " " + f.name + ";"
  }

  /** The four lines of the field template of `createParameters`, after the
      line break that opens it: `@NotBlank`, the `@Schema` annotation, the
      declaration, and the indentation before the closing backtick. */
  function FieldLines(f: Field): (lines: seq<string>)
    ensures |lines| == 4
    ensures SingleLine(f) ==> LinesFree(lines, '\n')
  {
    TemplateTextSingle(false);
    [Indent + "@NotBlank", SchemaLine(f), DeclarationLine(f), Indent]
  }

  /** The field template: a line break, then its lines joined by line breaks. */
  function RenderField(f: Field): string {
    "\n" + Join(FieldLines(f), '\n')
  }

  /** The field block; read back line by line it is an empty line followed
      by the four lines of each field, in order. */
  function RenderFields(fields: seq<Field>): (r: string)
    ensures r == "" <==> |fields| == 0
    ensures AllSingleLine(fields) ==> Split(r, '\n') == [""] + Flatten(FieldGroups(fields))
    decreases |fields|
  {
    if |fields| == 0 then "" else
      var rest := RenderFields(fields[1..]);
      RenderFieldsStep(fields, rest);
      RenderField(fields[0]) + rest
  }

  /** The line groups of a field block, one group per field. */
  function FieldGroups(fields: seq<Field>): (groups: seq<seq<string>>)
    ensures |groups| == |fields|
    ensures forall k :: 0 <= k < |fields| ==> groups[k] == FieldLines(fields[k])
    decreases |fields|
  {
    if |fields| == 0 then [] else [FieldLines(fields[0])] + FieldGroups(fields[1..])
  }

  lemma {:induction false} RenderFieldsStep(fields: seq<Field>, rest: string)
    requires |fields| >= 1
    requires AllSingleLine(fields[1..]) ==> Split(rest, '\n') == [""] + Flatten(FieldGroups(fields[1..]))
    ensures AllSingleLine(fields) ==>
              Split(RenderField(fields[0]) + rest, '\n') == [""] + Flatten(FieldGroups(fields))
  {
    if AllSingleLine(fields) {
      var lines := FieldLines(fields[0]);
      assert SingleLine(fields[0]);
      AllSingleLineTail(fields);
      SplitBlockOnto(lines, rest, Flatten(FieldGroups(fields[1..])), '\n');
      FlattenGroupsCons(fields);
      assert RenderField(fields[0]) + rest == ['\n'] + Join(lines, '\n') + rest;
    }
  }

  lemma {:induction false} AllSingleLineTail(fields: seq<Field>)
    requires |fields| >= 1 && AllSingleLine(fields)
    ensures AllSingleLine(fields[1..])
  {
    forall k | 0 <= k < |fields[1..]| ensures SingleLine(fields[1..][k]) {
      assert fields[1..][k] == fields[k + 1];
    }
  }

  lemma {:induction false} FlattenGroupsCons(fields: seq<Field>)
    requires |fields| >= 1
    ensures Flatten(FieldGroups(fields)) == FieldLines(fields[0]) + Flatten(FieldGroups(fields[1..]))
  {
    assert FieldGroups(fields)[1..] == FieldGroups(fields[1..]);
  }

  /** `createParameters`: the field block of the definition's reference
      fields, and the accumulator with every needed type added once; the
      properties of a definition without `properties` cannot be listed. */
  function CreateParameters(d: Definition, acc: seq<string>): (r: Result<(string, seq<string>), Error>)
    ensures r.Success? <==>
              d.properties.Some? &&
              forall k :: 0 <= k < |d.properties.value| ==> SearchDataType(d.properties.value[k].1, []).Success?
    ensures d.properties.None? ==> r == Failure(MissingProperties)
    ensures r.Success? ==> r.value.0 == RenderFields(ModelFields(d, d.properties.value))
    ensures r.Success? ==> r.value.1 == AddAll(acc, NeededAll(d.properties.value))
    ensures r.Success? ==> acc <= r.value.1
    ensures r.Success? && NoDup(acc) ==> NoDup(r.value.1)
    ensures r.Success? ==> forall k :: |acc| <= k < |r.value.1| ==> r.value.1[k] in ComplexFormatToJavaType.Values
  {
    match d.properties
    case None => Failure(MissingProperties)
    case Some(props) =>
      assert props[0..] == props;
      var res :- CreateFields(d, props, 0, acc);
      Success((RenderFields(res.0), res.1))
  }

  /** One import line: the table's import statement and `;`; a type the
      table lacks prints as `undefined;`. */
  function ImportLine(t: string): string {
    Render(Get(ImportComplexTypes, Some(t))) + ";"
  }

  /** The import lines of the accumulated types, in order. */
  function ImportLines(types: seq<string>): (lines: seq<string>)
    ensures |lines| == |types|
    ensures forall k :: 0 <= k < |types| ==> lines[k] == ImportLine(types[k])
    decreases |types|
  {
    if |types| == 0 then [] else [ImportLine(types[0])] + ImportLines(types[1..])
  }

  /** `createModeImports`: read back line by line, an empty line followed by
      one import line per accumulated type, in accumulator order. */
  function CreateModeImports(types: seq<string>): (r: string)
    ensures Split(r, '\n') == [""] + ImportLines(types)
    decreases |types|
  {
    if |types| == 0 then
      assert ImportLines(types) == [];
      ""
    else
      var rest := CreateModeImports(types[1..]);
      ImportsStep(types, rest);
      "\n" + ImportLine(types[0]) + rest
  }

  lemma {:induction false} ImportsStep(types: seq<string>, rest: string)
    requires |types| >= 1
    requires Split(rest, '\n') == [""] + ImportLines(types[1..])
    ensures Split("\n" + ImportLine(types[0]) + rest, '\n') == [""] + ImportLines(types)
  {
    ImportLineSingle(types[0]);
    SplitLineOnto(ImportLine(types[0]), rest, ImportLines(types[1..]), '\n');
    assert ImportLines(types) == [ImportLine(types[0])] + ImportLines(types[1..]);
  }

  /** The rendered model class body: its name, import block and field block. */
  datatype ModelArtifact = ModelArtifact(modelName: string, imports: string, parameters: string)

  /** The body of the `createRequestModels` / `createResponseModels` loop for
      one definition name, without the template write: a fresh accumulator,
      the definition's fields, and the imports they need. */
  function RenderModel(schemas: map<string, Definition>, name: string, suffix: string): (r: Result<ModelArtifact, Error>)
    ensures r.Success? <==> name in schemas && schemas[name].properties.Some? && CreateParameters(schemas[name], []).Success?
    ensures name !in schemas ==> r == Failure(UndefinedDefinition(name))
    ensures r.Success? ==>
              var props := schemas[name].properties.value;
              && r.value.modelName == name + suffix
              && r.value.parameters == RenderFields(ModelFields(schemas[name], props))
              && r.value.imports == CreateModeImports(AddAll([], NeededAll(props)))
    ensures r.Success? ==> ImportBlockShape(Split(r.value.imports, '\n'))
  {
    if name !in schemas then Failure(UndefinedDefinition(name))
    else
      var res :- CreateParameters(schemas[name], []);
      ImportBlockWellFormed(res.1);
      Success(ModelArtifact(name + suffix, CreateModeImports(res.1), res.0))
  }

  /** The model loop over a list of definition names (the discovered list),
      in list order: the first failing name aborts the loop. */
  function RenderModels(schemas: map<string, Definition>, names: seq<string>, suffix: string)
    : (r: Result<seq<ModelArtifact>, Error>)
    ensures r.Failure? ==> exists k :: 0 <= k < |names| && RenderModel(schemas, names[k], suffix).Failure?
    ensures r.Success? ==> |r.value| == |names|
    ensures r.Success? ==> forall k :: 0 <= k < |names| ==> RenderModel(schemas, names[k], suffix) == Success(r.value[k])
    decreases |names|
  {
    if |names| == 0 then Success([])
    else
      var m :- RenderModel(schemas, names[0], suffix);
      var ms :- RenderModels(schemas, names[1..], suffix);
      Success([m] + ms)
  }

  // ---------------------------------------------------------------------
  // Properties of the type mapping

  /** The mapped type, and whether mapping fails, do not depend on what the
      accumulator already holds. */
  lemma {:induction false} TypeIgnoresAccumulator(p: PropSchema, a1: seq<string>, a2: seq<string>)
    ensures SearchDataType(p, a1).Success? <==> SearchDataType(p, a2).Success?
    ensures SearchDataType(p, a1).Success? ==>
              SearchDataType(p, a1).value.javaType == SearchDataType(p, a2).value.javaType
    decreases p
  {
    if Get(SimpleFormatToJavaType, p.format).None? && Get(ComplexFormatToJavaType, p.format).None?
       && Get(DefaultFormatValues, p.typ).None? && p.typ == Some("array") && p.items.Some? {
      TypeIgnoresAccumulator(p.items.value, AddIfNew(a1, "List"), AddIfNew(a2, "List"));
    }
  }

  /** The complex types one schema needs, in the order the mapping records
      them, computed without an accumulator. */
  function ImportsNeeded(p: PropSchema): seq<string>
    decreases p
  {
    var simple := Get(SimpleFormatToJavaType, p.format);
    var complex := Get(ComplexFormatToJavaType, p.format);
    if simple.Some? then []
    else if complex.Some? then [complex.value]
    else if Get(DefaultFormatValues, p.typ).Some? then []
    else if p.typ == Some("array") && p.items.Some? then ["List"] + ImportsNeeded(p.items.value)
    else []
  }

  /** Threading the accumulator is the same as adding, one by one and
      skipping those already present, the types the schema needs. */
  lemma {:induction false} ImportsAreNeededAdded(p: PropSchema, acc: seq<string>)
    requires SearchDataType(p, acc).Success?
    ensures SearchDataType(p, acc).value.imports == AddAll(acc, ImportsNeeded(p))
    decreases p
  {
    var simple := Get(SimpleFormatToJavaType, p.format);
    var complex := Get(ComplexFormatToJavaType, p.format);
    if simple.None? && complex.None? && Get(DefaultFormatValues, p.typ).None? && p.typ == Some("array") {
      var needed := ["List"] + ImportsNeeded(p.items.value);
      ImportsAreNeededAdded(p.items.value, AddIfNew(acc, "List"));
      assert needed[0] == "List" && needed[1..] == ImportsNeeded(p.items.value);
    } else if simple.None? && complex.Some? {
      assert [complex.value][1..] == [];
    }
  }

  /** A schema whose format is in the simple table maps to that table's type
      and records nothing, whatever its type, items or `$ref` say. */
  lemma {:induction false} SimpleFormatWins(p: PropSchema, acc: seq<string>)
    requires p.format.Some? && p.format.value in SimpleFormatToJavaType
    ensures SearchDataType(p, acc) == Success(Mapping(Some(SimpleFormatToJavaType[p.format.value]), acc))
  {
  }

  /** A `date`, `date-time` or `array` format maps to the complex table's
      type, which is recorded once. */
  lemma {:induction false} ComplexFormatRecorded(p: PropSchema, acc: seq<string>)
    requires p.format.Some? && p.format.value in ComplexFormatToJavaType
    ensures var t := ComplexFormatToJavaType[p.format.value];
            && SearchDataType(p, acc).Success?
            && SearchDataType(p, acc).value.javaType == Some(t)
            && t in SearchDataType(p, acc).value.imports
            && (t in acc ==> SearchDataType(p, acc).value.imports == acc)
            && (t !in acc ==> SearchDataType(p, acc).value.imports == acc + [t])
  {
    FormatTablesDisjoint();
  }

  /** Type defaults apply only when no format matched, and never record an
      import: a `number` maps to `BigDecimal` with nothing recorded. */
  lemma {:induction false} DefaultsRecordNothing(p: PropSchema, acc: seq<string>)
    requires p.format.None? || (p.format.value !in SimpleFormatToJavaType && p.format.value !in ComplexFormatToJavaType)
    requires p.typ.Some? && p.typ.value in DefaultFormatValues
    ensures SearchDataType(p, acc) == Success(Mapping(Some(DefaultFormatValues[p.typ.value]), acc))
    ensures p.typ == Some("number") ==> SearchDataType(p, acc) == Success(Mapping(Some("BigDecimal"), acc))
  {
  }

  /** `BigDecimal` has an import line but is never recorded, so a model with
      a `number` property gets no `import java.math.BigDecimal`. */
  lemma {:induction false} BigDecimalNeverRecorded(p: PropSchema, acc: seq<string>)
    requires "BigDecimal" !in acc
    requires SearchDataType(p, acc).Success?
    ensures "BigDecimal" !in SearchDataType(p, acc).value.imports
    ensures "BigDecimal" in ImportComplexTypes
  {
    ComplexTypesHaveImports();
    var imports := SearchDataType(p, acc).value.imports;
    forall k | 0 <= k < |imports| ensures imports[k] != "BigDecimal" {
      if k < |acc| {
        assert imports[k] == acc[k];
      }
    }
  }

  /** With no format or type rule applying, a `$ref` maps to its last segment
      and records nothing; with no `$ref` either, there is no type. */
  lemma {:induction false} RefOrNothing(p: PropSchema, acc: seq<string>)
    requires Get(SimpleFormatToJavaType, p.format).None? && Get(ComplexFormatToJavaType, p.format).None?
    requires Get(DefaultFormatValues, p.typ).None? && p.typ != Some("array")
    ensures p.ref.Some? && p.ref.value != "" ==>
              SearchDataType(p, acc) == Success(Mapping(Some(LastSegment(p.ref.value)), acc))
    ensures p.ref.None? || p.ref.value == "" ==> SearchDataType(p, acc) == Success(Mapping(None, acc))
  {
  }

  /** With no format or type rule applying, an `array` needs `items`: it
      maps to `List <…>` around the type its items map to on their own, and
      records `List`. */
  lemma {:induction false} ArrayRule(p: PropSchema, acc: seq<string>)
    requires Get(SimpleFormatToJavaType, p.format).None? && Get(ComplexFormatToJavaType, p.format).None?
    requires Get(DefaultFormatValues, p.typ).None? && p.typ == Some("array")
    ensures p.items.None? ==> SearchDataType(p, acc) == Failure(MissingItems)
    ensures p.items.Some? ==>
              (SearchDataType(p, acc).Success? <==> SearchDataType(p.items.value, []).Success?)
    ensures p.items.Some? && SearchDataType(p, acc).Success? ==>
              && SearchDataType(p, acc).value.javaType
                 == Some("List <" + Render(SearchDataType(p.items.value, []).value.javaType) + ">")
              && "List" in SearchDataType(p, acc).value.imports
  {
    if p.items.Some? {
      var items := p.items.value;
      var inner := AddIfNew(acc, "List");
      TypeIgnoresAccumulator(items, inner, []);
      assert ComplexFormatToJavaType["array"] == "List";
      assert "List" + " <" == "List <";
      if SearchDataType(p, acc).Success? {
        assert inner <= SearchDataType(items, inner).value.imports;
        assert "List" in inner;
      }
    }
  }

  /** An array of `items` (with no format of its own). */
  function ArrayOf(items: PropSchema): PropSchema {
    PropSchema(Some("array"), None, Some(items), None, None, None)
  }

  /** `depth` nested arrays around `leaf`. */
  function Nested(depth: nat, leaf: PropSchema): PropSchema {
    if depth == 0 then leaf else ArrayOf(Nested(depth - 1, leaf))
  }

  /** `List <…>` wrapped `depth` times around `t`. */
  function ListOf(depth: nat, t: string): string {
    if depth == 0 then t else "List" + " <" + ListOf(depth - 1, t) + ">"
  }

  /** A leaf that maps to a primitive or wrapper type without recording anything. */
  predicate Primitive(leaf: PropSchema) {
    Get(SimpleFormatToJavaType, leaf.format).Some?
    || (Get(ComplexFormatToJavaType, leaf.format).None? && Get(DefaultFormatValues, leaf.typ).Some?)
  }

  /** Nested arrays of a primitive: the type is the nested `List <…>`, and
      once `List` is recorded nothing more is. */
  lemma {:induction false} NestedArrayType(depth: nat, leaf: PropSchema, acc: seq<string>)
    requires Primitive(leaf)
    requires depth > 0 ==> "List" in acc
    ensures SearchDataType(Nested(depth, leaf), acc).Success?
    ensures SearchDataType(Nested(depth, leaf), acc).value.imports == acc
    ensures SearchDataType(Nested(depth, leaf), acc).value.javaType
            == Some(ListOf(depth, SearchDataType(leaf, []).value.javaType.value))
  {
    ArrayHasNoDefault();
    if depth > 0 {
      NestedArrayType(depth - 1, leaf, acc);
      assert AddIfNew(acc, "List") == acc;
      var inner := SearchDataType(Nested(depth - 1, leaf), acc).value;
      assert SearchDataType(Nested(depth, leaf), acc)
             == Success(Mapping(Some("List" + " <" + Render(inner.javaType) + ">"), inner.imports));
    } else {
      TypeIgnoresAccumulator(leaf, acc, []);
    }
  }

  /** Mapping an array of arrays … of a primitive from an empty accumulator
      records `List` exactly once, however deep the nesting. */
  lemma {:induction false} NestedArrayListOnce(depth: nat, leaf: PropSchema)
    requires Primitive(leaf)
    requires depth > 0
    ensures SearchDataType(Nested(depth, leaf), []).Success?
    ensures SearchDataType(Nested(depth, leaf), []).value.imports == ["List"]
    ensures Count(SearchDataType(Nested(depth, leaf), []).value.imports, "List") == 1
  {
    ArrayHasNoDefault();
    NestedArrayType(depth - 1, leaf, ["List"]);
    assert AddIfNew([], "List") == ["List"];
    var inner := SearchDataType(Nested(depth - 1, leaf), ["List"]).value;
    assert SearchDataType(Nested(depth, leaf), [])
           == Success(Mapping(Some("List" + " <" + Render(inner.javaType) + ">"), inner.imports));
    assert Count(["List"], "List") == 1 + Count([], "List");
  }


  // ---------------------------------------------------------------------
  // Properties of the rendering

  /** `required` is set exactly for the properties the definition's
      `required` list names, and for none when the list is absent. */
  lemma {:induction false} RequiredFlags(d: Definition, props: seq<(string, PropSchema)>)
    ensures forall k :: 0 <= k < |props| ==>
              (ModelFields(d, props)[k].required <==> d.required.Some? && props[k].0 in d.required.value)
    ensures d.required.None? ==> forall k :: 0 <= k < |props| ==> !ModelFields(d, props)[k].required
    ensures forall n :: d.required == Some([n]) ==>
              forall k :: 0 <= k < |props| ==> (ModelFields(d, props)[k].required <==> props[k].0 == n)
  {
  }

  lemma {:induction false} ImportLineSingle(t: string)
    ensures '\n' !in ImportLine(t)
    ensures t in ImportComplexTypes ==> ImportLine(t) == ImportComplexTypes[t] + ";"
  {
    ImportLinesAreImports();
    if t in ImportComplexTypes {
      assert '\n' !in ImportComplexTypes[t];
    }
  }

  /** Distinct importable types render distinct import lines. */
  lemma {:induction false} ImportLineInjective(a: string, b: string)
    requires a in ImportComplexTypes && b in ImportComplexTypes
    requires ImportLine(a) == ImportLine(b)
    ensures a == b
  {
    var la, lb := ImportLine(a), ImportLine(b);
    ImportLineSingle(a);
    ImportLineSingle(b);
    assert ImportComplexTypes[a] == la[..|la| - 1];
    assert ImportComplexTypes[b] == lb[..|lb| - 1];
    ImportsDistinct(a, b);
  }

  lemma {:induction false} ImportLineIsImport(t: string)
    requires t in ImportComplexTypes
    ensures "import " <= ImportLine(t)
  {
    ImportLinesAreImports();
    ImportLineSingle(t);
  }

  /** The import lines of distinct importable types are distinct Java
      import statements. */
  lemma {:induction false} ImportLinesWellFormed(types: seq<string>)
    requires NoDup(types)
    requires forall k :: 0 <= k < |types| ==> types[k] in ImportComplexTypes
    ensures NoDup(ImportLines(types))
    ensures forall k :: 0 <= k < |types| ==> "import " <= ImportLines(types)[k]
  {
    var lines := ImportLines(types);
    forall k | 0 <= k < |types| ensures "import " <= lines[k] {
      ImportLineIsImport(types[k]);
    }
    forall i, j | 0 <= i < j < |lines| ensures lines[i] != lines[j] {
      if lines[i] == lines[j] {
        ImportLineInjective(types[i], types[j]);
      }
    }
  }

  lemma {:induction false} ComplexTypesImportable(types: seq<string>)
    requires forall k :: 0 <= k < |types| ==> types[k] in ComplexFormatToJavaType.Values
    ensures forall k :: 0 <= k < |types| ==> types[k] in ImportComplexTypes
  {
    ComplexTypesHaveImports();
  }

  /** An import block read back line by line: an empty first line, then
      distinct lines that each start an import statement. */
  predicate ImportBlockShape(lines: seq<string>) {
    && |lines| >= 1
    && lines[0] == ""
    && NoDup(lines[1..])
    && forall k :: 1 <= k < |lines| ==> "import " <= lines[k]
  }

  /** The import block of accumulated complex types: each line a distinct
      Java import statement. */
  lemma {:induction false} ImportBlockWellFormed(types: seq<string>)
    requires NoDup(types)
    requires forall k :: 0 <= k < |types| ==> types[k] in ComplexFormatToJavaType.Values
    ensures ImportBlockShape(Split(CreateModeImports(types), '\n'))
  {
    ComplexImportLinesWellFormed(types);
    ImportBlockOfLines(CreateModeImports(types), types);
  }

  /** A block that reads back as a blank line and then distinct import lines. */
  lemma {:induction false} ImportBlockOfLines(block: string, types: seq<string>)
    requires Split(block, '\n') == [""] + ImportLines(types)
    requires NoDup(ImportLines(types))
    requires forall k :: 0 <= k < |ImportLines(types)| ==> "import " <= ImportLines(types)[k]
    ensures ImportBlockShape(Split(block, '\n'))
  {
    ImportLinesAfterBlank(Split(block, '\n'), ImportLines(types));
  }


  lemma {:induction false} ComplexImportLinesWellFormed(types: seq<string>)
    requires NoDup(types)
    requires forall k :: 0 <= k < |types| ==> types[k] in ComplexFormatToJavaType.Values
    ensures NoDup(ImportLines(types))
    ensures forall k :: 0 <= k < |ImportLines(types)| ==> "import " <= ImportLines(types)[k]
  {
    ComplexTypesImportable(types);
    ImportLinesWellFormed(types);
  }

  lemma {:induction false} ImportLinesAfterBlank(lines: seq<string>, rest: seq<string>)
    requires lines == [""] + rest
    requires NoDup(rest) && forall k :: 0 <= k < |rest| ==> "import " <= rest[k]
    ensures ImportBlockShape(lines)
  {
    assert lines[1..] == rest;
    assert forall k :: 1 <= k < |lines| ==> lines[k] == rest[k - 1];
  }
}
