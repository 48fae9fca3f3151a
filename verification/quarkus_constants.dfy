/** The four lookup tables of the Quarkus generator. */
module QuarkusConstants {

  /** Formats mapped to Java primitives; no import needed. */
  const SimpleFormatToJavaType: map<string, string> :=
    map["float" := "float", "double" := "double", "int32" := "int", "int64" := "long"]

  /** Formats mapped to Java classes that need an import. */
  const ComplexFormatToJavaType: map<string, string> :=
    map["date" := "LocalDate", "date-time" := "LocalDateTime", "array" := "List"]

  /** Fallback Java type by JSON-schema `type`. */
  const DefaultFormatValues: map<string, string> :=
    map["string" := "String", "number" := "BigDecimal", "integer" := "int", "boolean" := "boolean"]

  /** Import statement (without the `;`) for each complex Java type. */
  const ImportComplexTypes: map<string, string> :=
    map["LocalDate" := "import java.time.LocalDate",
        "List" := "import java.util.List",
        "BigDecimal" := "import java.math.BigDecimal",
        "LocalDateTime" := "import java.time.LocalDateTime"]

  /** The two format tables never compete: their keys are disjoint. */
  lemma {:induction false} FormatTablesDisjoint()
    ensures SimpleFormatToJavaType.Keys !! ComplexFormatToJavaType.Keys
  {
  }

  /** Every complex Java type has an import line. */
  lemma {:induction false} ComplexTypesHaveImports()
    ensures ComplexFormatToJavaType.Values <= ImportComplexTypes.Keys
    ensures ComplexFormatToJavaType.Values == {"LocalDate", "LocalDateTime", "List"}
  {
    assert ComplexFormatToJavaType["date"] == "LocalDate";
    assert ComplexFormatToJavaType["date-time"] == "LocalDateTime";
    assert ComplexFormatToJavaType["array"] == "List";
  }

  /** No type default is keyed by `array`, so the recursive array rule is reachable. */
  lemma {:induction false} ArrayHasNoDefault()
    ensures "array" !in DefaultFormatValues
    ensures "array" in ComplexFormatToJavaType && ComplexFormatToJavaType["array"] == "List"
  {
  }

  /** Every import line is a Java import statement without a newline. */
  lemma {:induction false} ImportLinesAreImports()
    ensures forall t :: t in ImportComplexTypes ==> "import " <= ImportComplexTypes[t]
    ensures forall t :: t in ImportComplexTypes ==> '\n' !in ImportComplexTypes[t]
  {
    forall t | t in ImportComplexTypes
      ensures "import " <= ImportComplexTypes[t] && '\n' !in ImportComplexTypes[t]
    {
      assert t == "LocalDate" || t == "List" || t == "BigDecimal" || t == "LocalDateTime";
    }
  }

  /** Distinct types import distinct classes. */
  lemma {:induction false} ImportsDistinct(a: string, b: string)
    requires a in ImportComplexTypes && b in ImportComplexTypes
    requires ImportComplexTypes[a] == ImportComplexTypes[b]
    ensures a == b
  {
  }
}
