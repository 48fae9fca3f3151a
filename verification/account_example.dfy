/** A whole contract run through both halves of the model: one path whose
    `GET` answers 200 with a definition holding `id: string` and
    `balance: number`. Discovery lists that definition alone, and its model
    class gets a `String` and a `BigDecimal` field and no import line. */
module AccountExample {
  import opened Wrappers
  import opened Strings
  import opened Schema
  import opened Swagger
  import opened SwaggerCycles
  import opened QuarkusConstants
  import opened Quarkus

  function Typed(t: string): PropSchema {
    PropSchema(Some(t), None, None, None, None, None)
  }

  /** The two properties, in key order. */
  function AccountProps(): seq<(string, PropSchema)> {
    [("id", Typed("string")), ("balance", Typed("number"))]
  }

  /** `GET /accounts` answers 200 with the definition `name`, reached through `ref`. */
  function AccountDoc(name: string, ref: string): Document {
    Document(
      Info("bank", "1.0.0"),
      [("/accounts", [("get", Operation(None, Some([("200", Body(Some(map[Json := MediaType(Some(RefTo(ref)))])))])))])],
      map[name := Definition(Some(AccountProps()), None)])
  }

  /** The single body of the contract names the definition. */
  lemma {:induction false} AccountRoot(name: string, ref: string)
    requires ref != "" && LastSegment(ref) == name
    ensures var body := Body(Some(map[Json := MediaType(Some(RefTo(ref)))]));
            && PathBodies(AccountDoc(name, ref).paths) == [body]
            && RootName(body) == Some(name)
  {
    var doc := AccountDoc(name, ref);
    var body := Body(Some(map[Json := MediaType(Some(RefTo(ref)))]));
    assert BodyRef(body) == Success(Some(ref));
    assert OperationBodies(doc.paths[0].1[0].1) == [body];
    assert VerbBodies(doc.paths[0].1) == [body] + VerbBodies([]);
    assert PathBodies(doc.paths) == [body] + PathBodies([]);
  }

  /** Neither property carries a reference, so expansion adds nothing. */
  lemma {:induction false} AccountPropsExpandToNothing(schemas: map<string, Definition>, acc: seq<string>)
    ensures ExpandProps(schemas, AccountProps(), 0, acc) == Success(acc)
  {
    var ps := AccountProps();
    assert PropertyRef(ps[0].1) == Success(None);
    assert PropertyRef(ps[1].1) == Success(None);
    assert ExpandProps(schemas, ps, 2, acc) == Success(acc);
    assert ExpandProps(schemas, ps, 1, acc) == Success(acc);
  }

  /** Discovery lists exactly the one definition the response uses. */
  lemma {:induction false} AccountDiscovered(name: string, ref: string)
    requires ref != "" && LastSegment(ref) == name
    ensures DefinitionNames(AccountDoc(name, ref)) == Success([name])
  {
    var doc := AccountDoc(name, ref);
    var body := Body(Some(map[Json := MediaType(Some(RefTo(ref)))]));
    AccountRoot(name, ref);
    assert BodyRef(body) == Success(Some(ref));
    assert PropertiesOf(doc.schemas, name) == Success(AccountProps());
    AccountPropsExpandToNothing(doc.schemas, [name]);
    assert [] + [name] == [name];
    assert ExtractRefDefinition(doc.schemas, body, []) == Success([name]);
    assert DiscoverFrom(doc.schemas, [body], []) == DiscoverFrom(doc.schemas, [], [name]);
  }

  /** `id` maps to `String`, `balance` to `BigDecimal`; neither records an import. */
  lemma {:induction false} AccountFields(d: Definition)
    ensures CreateFields(d, AccountProps(), 0, [])
            == Success(([Field("id", IsRequired(d, "id"), None, None, Some("String")),
                         Field("balance", IsRequired(d, "balance"), None, None, Some("BigDecimal"))], []))
  {
    var ps := AccountProps();
    FormatTablesDisjoint();
    DefaultsRecordNothing(ps[0].1, []);
    DefaultsRecordNothing(ps[1].1, []);
    assert SearchDataType(ps[0].1, []) == Success(Mapping(Some("String"), []));
    assert SearchDataType(ps[1].1, []) == Success(Mapping(Some("BigDecimal"), []));
    var f0 := Field("id", IsRequired(d, "id"), None, None, Some("String"));
    var f1 := Field("balance", IsRequired(d, "balance"), None, None, Some("BigDecimal"));
    assert CreateFields(d, ps, 2, []) == Success(([], []));
    assert CreateFields(d, ps, 1, []) == Success(([f1] + [], []));
    assert ps[0].1.description == None && ps[0].1.example == None && ps[0].0 == "id";
    assert CreateFields(d, ps, 0, []) == Success(([f0] + ([f1] + []), []));
    assert [f0] + ([f1] + []) == [f0, f1];
  }

  /** The response model of the contract: named `<name>Response`, with an
      empty import block although `BigDecimal` has an import line. */
  lemma {:induction false} AccountModel(name: string, ref: string)
    ensures var schemas := AccountDoc(name, ref).schemas;
            && RenderModel(schemas, name, "Response").Success?
            && RenderModel(schemas, name, "Response").value.modelName == name + "Response"
            && RenderModel(schemas, name, "Response").value.imports == ""
  {
    var schemas := AccountDoc(name, ref).schemas;
    AccountFields(schemas[name]);
    assert CreateModeImports([]) == "";
  }
}

/** An array of arrays of a reference: the model class names the referenced
    type, but discovery reads only the outer array's `items.$ref`, so the
    definition it names is not discovered through this property. */
module NestedArrayExample {
  import opened Wrappers
  import opened Seqs
  import opened Strings
  import opened Schema
  import opened Swagger
  import opened SwaggerCycles
  import opened QuarkusConstants
  import opened Quarkus

  lemma {:induction false} NestedRefNotFollowed(ref: string)
    requires ref != "" && LastSegment(ref) != ""
    ensures var p := ArrayOf(ArrayOf(RefTo(ref)));
            && PropertyRef(p) == Success(None)
            && RefTarget(p) == None
            && SearchDataType(p, []) == Success(Mapping(Some("List <List <" + LastSegment(ref) + ">>"), ["List"]))
  {
    var name := LastSegment(ref);
    ArrayHasNoDefault();
    RefOrNothing(RefTo(ref), ["List"]);
    var inner := SearchDataType(ArrayOf(RefTo(ref)), ["List"]);
    assert inner == Success(Mapping(Some("List" + " <" + name + ">"), ["List"]));
    assert AddIfNew([], "List") == ["List"];
    assert SearchDataType(ArrayOf(ArrayOf(RefTo(ref))), [])
           == Success(Mapping(Some("List" + " <" + ("List" + " <" + name + ">") + ">"), ["List"]));
    ListTwice(name);
  }

  lemma {:induction false} ListTwice(name: string)
    ensures "List" + " <" + ("List" + " <" + name + ">") + ">" == "List <List <" + name + ">>"
  {
  }
}
