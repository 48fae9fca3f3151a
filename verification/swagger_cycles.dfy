/** The secondary-definition walk of commons/swagger.ts exactly as written:
    after the guarded push it recurses into the referenced definition
    whether or not that name was already listed. `fuel` stands for the
    bound the JavaScript call stack puts on the recursion depth; `None`
    means the walk went deeper than `fuel`, where the source throws a
    `RangeError` (stack overflow) out of the constructor. */
module SwaggerAsWritten {
  import opened Wrappers
  import opened Seqs
  import opened Strings
  import opened Schema
  import opened Swagger

  function Secondary(schemas: map<string, Definition>, name: string, acc: seq<string>, fuel: nat)
    : (r: Option<Result<seq<string>, Error>>)
    ensures r.Some? && r.value.Success? ==> acc <= r.value.value
    decreases fuel, 0, 0
  {
    if fuel == 0 then None
    else match PropertiesOf(schemas, name)
      case Failure(e) => Some(Failure(e))
      case Success(ps) => SecondaryProps(schemas, ps, 0, acc, fuel - 1)
  }

  function SecondaryProps(schemas: map<string, Definition>, props: seq<(string, PropSchema)>, i: nat, acc: seq<string>, fuel: nat)
    : (r: Option<Result<seq<string>, Error>>)
    requires i <= |props|
    ensures r.Some? && r.value.Success? ==> acc <= r.value.value
    decreases fuel, 1, |props| - i
  {
    if i == |props| then Some(Success(acc))
    else match PropertyRef(props[i].1)
      case Failure(e) => Some(Failure(e))
      case Success(None) => SecondaryProps(schemas, props, i + 1, acc, fuel)
      case Success(Some(ref)) =>
        var n := LastSegment(ref);
        match Secondary(schemas, n, AddIfNew(acc, n), fuel)
        case None => None
        case Some(Failure(e)) => Some(Failure(e))
        case Some(Success(acc')) => SecondaryProps(schemas, props, i + 1, acc', fuel)
  }

  /** A definition `name` whose one property refers, through `ref`, back to `name`. */
  function SelfReferencing(name: string, ref: string): map<string, Definition> {
    map[name := Definition(Some([("next", PropSchema(None, None, None, Some(ref), None, None))]), None)]
  }

  /** On a self-referencing definition the walk as written never returns,
      however deep the recursion is allowed to go: whatever the stack bound,
      the source overflows it and the constructor throws. */
  lemma {:induction false} SelfReferenceNeverReturns(name: string, ref: string, acc: seq<string>, fuel: nat)
    requires ref != "" && LastSegment(ref) == name
    requires name in acc
    ensures Secondary(SelfReferencing(name, ref), name, acc, fuel) == None
    decreases fuel
  {
    if fuel > 0 {
      var schemas := SelfReferencing(name, ref);
      var ps := [("next", PropSchema(None, None, None, Some(ref), None, None))];
      assert PropertiesOf(schemas, name) == Success(ps);
      assert PropertyRef(ps[0].1) == Success(Some(ref));
      assert AddIfNew(acc, name) == acc;
      SelfReferenceNeverReturns(name, ref, acc, fuel - 1);
    }
  }

  /** The usual component reference: `#/components/schemas/Node`. */
  lemma {:induction false} NodeSegment()
    ensures LastSegment("#/components/schemas/Node") == "Node"
  {
    LastSegmentOfPath("#/components/schemas", "Node");
    assert "#/components/schemas/Node" == "#/components/schemas" + "/" + "Node";
  }

  /** Counterexample: `Node` with `next: {$ref: '#/components/schemas/Node'}`,
      reached as a root (already listed), exhausts any recursion bound, so
      the constructor throws a stack-overflow `RangeError`. */
  lemma {:induction false} NodeNeverReturns(fuel: nat)
    ensures Secondary(SelfReferencing("Node", "#/components/schemas/Node"), "Node", ["Node"], fuel) == None
  {
    NodeSegment();
    SelfReferenceNeverReturns("Node", "#/components/schemas/Node", ["Node"], fuel);
  }
}

/** The same inputs under the visited-before-recurse walk of `Swagger`. */
module SwaggerCycles {
  import opened Wrappers
  import opened Seqs
  import opened Strings
  import opened Schema
  import opened Swagger
  import opened SwaggerLemmas
  import SwaggerAsWritten

  /** The self-referencing definition expands to itself, listed once. */
  lemma {:induction false} SelfReferenceResolves(name: string, ref: string)
    requires ref != "" && LastSegment(ref) == name
    ensures var schemas := SwaggerAsWritten.SelfReferencing(name, ref);
            ExpandProps(schemas, schemas[name].properties.value, 0, [name]) == Success([name])
  {
    var schemas := SwaggerAsWritten.SelfReferencing(name, ref);
    var ps := schemas[name].properties.value;
    assert PropertyRef(ps[0].1) == Success(Some(ref));
  }

  /** A property schema that is only a `$ref`. */
  function RefTo(ref: string): PropSchema {
    PropSchema(None, None, None, Some(ref), None, None)
  }

  lemma {:induction false} RefToTarget(ref: string)
    requires ref != "" && LastSegment(ref) != ""
    ensures RefTarget(RefTo(ref)) == Some(LastSegment(ref))
  {
    assert PropertyRef(RefTo(ref)) == Success(Some(ref));
  }

  /** `GET /accounts` answers 200 with definition `a`; `a` refers to `b` and `b` back to `a`. */
  function MutualDoc(a: string, refA: string, b: string, refB: string): Document {
    Document(
      Info("bank", "1.0.0"),
      [("/accounts", [("get", Operation(None, Some([("200", Body(Some(map[Json := MediaType(Some(RefTo(refA)))])))])))])],
      map[a := Definition(Some([("b", RefTo(refB))]), None),
          b := Definition(Some([("a", RefTo(refA))]), None)])
  }

  lemma {:induction false} MutualDocBodies(a: string, refA: string, b: string, refB: string)
    requires refA != ""
    ensures var body := Body(Some(map[Json := MediaType(Some(RefTo(refA)))]));
            && PathBodies(MutualDoc(a, refA, b, refB).paths) == [body]
            && BodyRef(body) == Success(Some(refA))
            && RootName(body) == Some(LastSegment(refA))
  {
    var doc := MutualDoc(a, refA, b, refB);
    var body := Body(Some(map[Json := MediaType(Some(RefTo(refA)))]));
    var op := doc.paths[0].1[0].1;
    assert OperationBodies(op) == [body];
    assert VerbBodies(doc.paths[0].1) == [body] + VerbBodies([]);
    assert PathBodies(doc.paths) == [body] + PathBodies([]);
  }

  lemma {:induction false} MutualWellFormed(a: string, refA: string, b: string, refB: string)
    requires a != b && a != "" && b != ""
    requires refA != "" && refB != "" && LastSegment(refA) == a && LastSegment(refB) == b
    ensures SchemasWellFormed(MutualDoc(a, refA, b, refB).schemas)
  {
    var schemas := MutualDoc(a, refA, b, refB).schemas;
    RefToTarget(refA);
    RefToTarget(refB);
    forall n | n in schemas
      ensures schemas[n].properties.Some? && PropsResolvable(schemas, schemas[n].properties.value)
    {
      assert n == a || n == b;
    }
  }

  /** Every reference in the mutual document points at `a` or `b`. */
  lemma {:induction false} MutualEdges(a: string, refA: string, b: string, refB: string)
    requires a != b && a != "" && b != ""
    requires refA != "" && refB != "" && LastSegment(refA) == a && LastSegment(refB) == b
    ensures forall x, y :: Edge(MutualDoc(a, refA, b, refB).schemas, x, y) ==> y == a || y == b
  {
    var schemas := MutualDoc(a, refA, b, refB).schemas;
    RefToTarget(refA);
    RefToTarget(refB);
    forall x, y | Edge(schemas, x, y) ensures y == a || y == b {
      assert x == a || x == b;
    }
  }

  /** The one body of the mutual document names `a` and nothing else. */
  lemma {:induction false} MutualRoots(a: string, refA: string, b: string, refB: string)
    requires refA != "" && LastSegment(refA) == a
    ensures RootNames(PathBodies(MutualDoc(a, refA, b, refB).paths)) == {a}
  {
    MutualDocBodies(a, refA, b, refB);
  }

  lemma {:induction false} MutualResolves(a: string, refA: string, b: string, refB: string)
    requires a != b && a != "" && b != ""
    requires refA != "" && refB != "" && LastSegment(refA) == a && LastSegment(refB) == b
    ensures DefinitionNames(MutualDoc(a, refA, b, refB)).Success?
  {
    var doc := MutualDoc(a, refA, b, refB);
    MutualDocBodies(a, refA, b, refB);
    MutualRoots(a, refA, b, refB);
    MutualWellFormed(a, refA, b, refB);
    WellFormedReachable(doc.schemas, RootNames(PathBodies(doc.paths)));
    WellFormedResolves(doc);
  }

  /** Both definitions are listed: `a` as the root, `b` through `a`'s property. */
  lemma {:induction false} MutualListsBoth(a: string, refA: string, b: string, refB: string)
    requires a != b && a != "" && b != ""
    requires refA != "" && refB != "" && LastSegment(refA) == a && LastSegment(refB) == b
    requires DefinitionNames(MutualDoc(a, refA, b, refB)).Success?
    ensures a in DefinitionNames(MutualDoc(a, refA, b, refB)).value
    ensures b in DefinitionNames(MutualDoc(a, refA, b, refB)).value
  {
    var doc := MutualDoc(a, refA, b, refB);
    var schemas := doc.schemas;
    MutualDocBodies(a, refA, b, refB);
    var names := DefinitionNames(doc).value;
    DefinitionNamesClosed(doc);
    assert a in names;
    assert Expanded(schemas, a, names);
    RefToTarget(refB);
    assert PropertiesOf(schemas, a).value[0].1 == RefTo(refB);
  }

  /** Nothing but the two definitions is listed. */
  lemma {:induction false} MutualListsOnly(a: string, refA: string, b: string, refB: string)
    requires a != b && a != "" && b != ""
    requires refA != "" && refB != "" && LastSegment(refA) == a && LastSegment(refB) == b
    requires DefinitionNames(MutualDoc(a, refA, b, refB)).Success?
    ensures forall x :: x in DefinitionNames(MutualDoc(a, refA, b, refB)).value ==> x == a || x == b
  {
    var doc := MutualDoc(a, refA, b, refB);
    var schemas := doc.schemas;
    var names := DefinitionNames(doc).value;
    var roots := RootNames(PathBodies(doc.paths));
    MutualRoots(a, refA, b, refB);
    DiscoverJustified(schemas, roots, PathBodies(doc.paths), []);
    MutualEdges(a, refA, b, refB);
    forall x | x in names ensures x == a || x == b {
      var j :| 0 <= j < |names| && names[j] == x;
      if x !in roots {
        assert HasEarlierParent(schemas, names, j);
      }
    }
  }

  /** Mutually referencing definitions resolve, and each is listed exactly once. */
  lemma {:induction false} MutualReferenceResolvesOnce(a: string, refA: string, b: string, refB: string)
    requires a != b && a != "" && b != ""
    requires refA != "" && refB != "" && LastSegment(refA) == a && LastSegment(refB) == b
    ensures DefinitionNames(MutualDoc(a, refA, b, refB)).Success?
    ensures var names := DefinitionNames(MutualDoc(a, refA, b, refB)).value;
            Elems(names) == {a, b} && Count(names, a) == 1 && Count(names, b) == 1
  {
    MutualResolves(a, refA, b, refB);
    MutualListsBoth(a, refA, b, refB);
    MutualListsOnly(a, refA, b, refB);
    ExactlyTwo(DefinitionNames(MutualDoc(a, refA, b, refB)).value, a, b);
  }

  lemma {:induction false} ExactlyTwo(names: seq<string>, a: string, b: string)
    requires NoDup(names) && a in names && b in names
    requires forall x :: x in names ==> x == a || x == b
    ensures Elems(names) == {a, b} && Count(names, a) == 1 && Count(names, b) == 1
  {
    NoDupCountOne(names, a);
    NoDupCountOne(names, b);
  }

  lemma {:induction false} AccountSegment()
    ensures LastSegment("#/components/schemas/Account") == "Account"
  {
    LastSegmentOfPath("#/components/schemas", "Account");
    assert "#/components/schemas/Account" == "#/components/schemas" + "/" + "Account";
  }

  lemma {:induction false} HolderSegment()
    ensures LastSegment("#/components/schemas/Holder") == "Holder"
  {
    LastSegmentOfPath("#/components/schemas", "Holder");
    assert "#/components/schemas/Holder" == "#/components/schemas" + "/" + "Holder";
  }

  /** `Account` refers to `Holder` and `Holder` back to `Account`. */
  lemma {:induction false} AccountHolderResolvesOnce()
    ensures var doc := MutualDoc("Account", "#/components/schemas/Account", "Holder", "#/components/schemas/Holder");
            && DefinitionNames(doc).Success?
            && Elems(DefinitionNames(doc).value) == {"Account", "Holder"}
            && Count(DefinitionNames(doc).value, "Account") == 1
            && Count(DefinitionNames(doc).value, "Holder") == 1
  {
    AccountSegment();
    HolderSegment();
    MutualReferenceResolvesOnce("Account", "#/components/schemas/Account", "Holder", "#/components/schemas/Holder");
  }
}
