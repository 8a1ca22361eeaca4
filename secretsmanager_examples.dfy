/** The secret store's behaviour on concrete references and payloads, with
    the JSON stand-in of module Gjson in place of the gjson library. */
module SecretsManagerExamples {
  import opened Wrappers
  import opened GoStrings
  import opened Api
  import opened Secrets
  import opened SecretsManager
  import Gjson

  /** A gjson that can parse the one payload whose text is `doc`'s. */
  function DocumentLookup(doc: Gjson.Json): Lookup
  {
    (payload: Bytes, path: Bytes) => if payload == Gjson.Render(doc) then Gjson.Get(doc, path) else None
  }

  /** A client that answers every request with the string payload `text`. */
  function StringClient(text: Bytes): Client
  {
    (input: GetSecretValueInput) => Answered(GetSecretValueOutput(Some(text), None))
  }

  /** `{"a.b":"x","a":{"b":"y"}}` */
  const FlatAndNested: Gjson.Json :=
    Gjson.Object([Gjson.Member("a.b", Gjson.Str("x")),
                  Gjson.Member("a", Gjson.Object([Gjson.Member("b", Gjson.Str("y"))]))])

  /** `{"a":{"b":"y"}}` */
  const NestedOnly: Gjson.Json :=
    Gjson.Object([Gjson.Member("a", Gjson.Object([Gjson.Member("b", Gjson.Str("y"))]))])

  /** `{"a":1}` */
  const OneNumber: Gjson.Json := Gjson.Object([Gjson.Member("a", Gjson.Number("1"))])

  /** The three documents are the JSON texts they stand for. */
  lemma ExampleTexts()
    ensures Gjson.Render(FlatAndNested) == "{\"a.b\":\"x\",\"a\":{\"b\":\"y\"}}"
    ensures Gjson.Render(NestedOnly) == "{\"a\":{\"b\":\"y\"}}"
    ensures Gjson.Render(OneNumber) == "{\"a\":1}"
  {
  }

  lemma UuidVersionIsVersionId()
    ensures BuildGetSecretValueInput(ExternalSecretRef("db", [], "uuid/abc123"))
              == GetSecretValueInput("db", Some("abc123"), None)
  {
  }

  lemma OtherVersionIsStage()
    ensures BuildGetSecretValueInput(ExternalSecretRef("db", [], "AWSPREVIOUS"))
              == GetSecretValueInput("db", None, Some("AWSPREVIOUS"))
  {
    assert "AWSPREVIOUS"[0] != UuidPrefix[0];
  }

  lemma NoVersionIsCurrentStage()
    ensures BuildGetSecretValueInput(ExternalSecretRef("db", [], []))
              == GetSecretValueInput("db", None, Some("AWSCURRENT"))
  {
  }

  /** The literal key "a.b" wins over the nested path a -> b. */
  lemma LiteralKeyWins()
    ensures SmSecretStore(StringClient(Gjson.Render(FlatAndNested)))
              .GetSecret(ExternalSecretRef("s", "a.b", []), DocumentLookup(FlatAndNested))
              == Success(Some("x"))
  {
    Gjson.EscapedLookupIsTopLevel(FlatAndNested, "a.b");
    assert Gjson.Field(FlatAndNested.members, "a.b") == Some(Gjson.Str("x"));
  }

  /** `{"a":{"b":"y"}}` has no literal key "a.b". */
  lemma NestedOnlyHasNoFlatKey()
    ensures Gjson.Get(NestedOnly, EscapeDots("a.b")) == None
  {
    Gjson.EscapedLookupIsTopLevel(NestedOnly, "a.b");
    assert Gjson.Field(NestedOnly.members, "a.b") == None;
  }

  /** The path a.b has the two components a and b. */
  lemma DottedPathComponents()
    ensures Gjson.Components("a.b") == ["a", "b"]
  {
    var a: Bytes, b: Bytes := "a", "b";
    assert '.' !in a && '\\' !in a && '.' !in b && '\\' !in b;
    assert a + ['.'] + b == "a.b";
    Gjson.SplitAtDot(a, b, []);
    Gjson.SplitPlain(b, []);
    assert [] + a == a && [] + b == b;
  }

  /** In `{"a":{"b":"y"}}` the path a.b reaches "y". */
  lemma NestedOnlyPath()
    ensures Gjson.Get(NestedOnly, "a.b") == Some("y")
  {
    DottedPathComponents();
    var inner := Gjson.Object([Gjson.Member("b", Gjson.Str("y"))]);
    assert Gjson.Field(NestedOnly.members, "a") == Some(inner);
    assert Gjson.Field(inner.members, "b") == Some(Gjson.Str("y"));
    var keys: seq<Bytes> := ["a", "b"];
    assert keys[1..] == ["b"];
    assert Gjson.Descend(inner, ["b"]) == Some(Gjson.Str("y"));
    assert Gjson.Descend(NestedOnly, keys) == Gjson.Descend(inner, ["b"]);
  }

  /** Without a literal key "a.b", the path descends into "a" and then "b". */
  lemma NestedPathFallback()
    ensures SmSecretStore(StringClient(Gjson.Render(NestedOnly)))
              .GetSecret(ExternalSecretRef("s", "a.b", []), DocumentLookup(NestedOnly))
              == Success(Some("y"))
  {
    NestedOnlyHasNoFlatKey();
    NestedOnlyPath();
  }

  /** A property that names nothing is an error naming property and secret. */
  lemma MissingPropertyIsError()
    ensures SmSecretStore(StringClient(Gjson.Render(OneNumber)))
              .GetSecret(ExternalSecretRef("s", "missing", []), DocumentLookup(OneNumber))
              == Failure(KeyNotFound("missing", "s"))
  {
    var missing: Bytes := "missing";
    assert forall i :: 0 <= i < |missing| ==> missing[i] != '.' && missing[i] != '\\';
    Gjson.SplitPlain(missing, []);
    assert [] + missing == missing;
    assert Gjson.Components("missing") == ["missing"];
    assert Gjson.Field(OneNumber.members, "missing") == None;
  }
}
