/**
 * A worked pass of the generator over a small OpenAPI v2 document: an object
 * schema `Pet` with a string `name` and an `owner` that references the enum
 * schema `Person`, whose literals are `ADMIN` and `user`.
 */
module Scenarios {
  import opened Wrappers
  import opened JsStrings
  import opened Sorting
  import opened SwaggerModel
  import opened TypesGenerator

  function PetDefinition(): Definition {
    Definition(None, Some([
      ("name", Property(Some("string"), None, None, None, None)),
      ("owner", Property(None, None, Some("#/definitions/Person"), None, None))]), None)
  }

  function PersonDefinition(): Definition {
    Definition(None, None, Some(["ADMIN", "user"]))
  }

  function PetStore(): Swagger {
    Swagger(Some([("Pet", PetDefinition()), ("Person", PersonDefinition())]), None)
  }

  /** `Pet` becomes an interface with two properties and one import of `Person`. */
  lemma PetInterface()
    ensures MakeDeclaration("Pet", PetDefinition()) == Ok(InterfaceDecl(None, "Pet",
      [InterfaceProperty("name", None, "string"), InterfaceProperty("owner", None, "Person")],
      [InterfaceImport(Some("Person"))]))
  {
    var props := PetDefinition().properties.value;
    CleanRefDefinitions("Person");
    assert DefinitionsPrefix + "Person" == "#/definitions/Person";
    var results := ImportResults("Pet", props).value;
    assert results == [None, Some(InterfaceImport(Some("Person")))];
    assert results[1..] == [Some(InterfaceImport(Some("Person")))];
    assert results[1..][1..] == [];
    assert Defined(results) == [InterfaceImport(Some("Person"))];
    var properties := PropertiesOf(props).value;
    assert properties == [InterfaceProperty("name", None, "string"), InterfaceProperty("owner", None, "Person")];
  }

  /** `Person` becomes an enum whose member names are the upper-cased literals. */
  lemma PersonEnum()
    ensures MakeDeclaration("Person", PersonDefinition()) ==
      Ok(EnumDecl(None, "Person", [EnumProperty("ADMIN", "ADMIN"), EnumProperty("USER", "user")]))
  {
    assert ToUpperAscii("ADMIN") == "ADMIN";
    assert ToUpperAscii("user") == "USER";
    var members := EnumMembers(["ADMIN", "user"]);
    assert members == [EnumProperty("ADMIN", "ADMIN"), EnumProperty("USER", "user")];
  }

  /** The export line of `Person` sorts before that of `Pet`: they first differ at `r` and `t`. */
  lemma PersonLineBeforePetLine()
    ensures LexLe(ExportLine("Person"), ExportLine("Pet"))
    ensures !LexLe(ExportLine("Pet"), ExportLine("Person"))
  {
    var pet, person := ExportLine("Pet"), ExportLine("Person");
    var common, petRest, personRest := "export { Pe", "t } from './Pet';\n", "rson } from './Person';\n";
    assert pet == common + petRest;
    assert person == common + personRest;
    LexLeCommonPrefix(common, petRest, personRest);
    LexLeCommonPrefix(common, personRest, petRest);
  }

  /** The barrel lists `Person` before `Pet`, whatever the order of the definitions. */
  lemma PetStoreBarrel()
    ensures Barrel(["Pet", "Person"]) == ExportLine("Person") + ExportLine("Pet")
  {
    PersonLineBeforePetLine();
    BarrelPair("Pet", "Person");
  }

  lemma BarrelPair(a: string, b: string)
    requires LexLe(ExportLine(b), ExportLine(a))
    ensures Barrel([a, b]) == ExportLine(b) + ExportLine(a)
  {
    var la, lb := ExportLine(a), ExportLine(b);
    assert ExportLines([a, b]) == [la, lb];
    SortPair(la, lb);
    assert Concat([lb, la]) == lb + Concat([la]);
  }

  /** The whole pass: the two declarations, in definition order, and the sorted barrel. */
  lemma PetStoreGenerated()
    ensures MakeTypes(PetStore()) == Ok(Generated(
      [("Pet", MakeDeclaration("Pet", PetDefinition()).value), ("Person", MakeDeclaration("Person", PersonDefinition()).value)],
      ExportLine("Person") + ExportLine("Pet")))
  {
    PetInterface();
    PersonEnum();
    PetStoreBarrel();
    var defs := PetStore().definitions.value;
    assert TypeNames(defs) == ["Pet", "Person"];
    var files := MakeDeclarations(defs).value;
    assert files == [("Pet", MakeDeclaration("Pet", PetDefinition()).value), ("Person", MakeDeclaration("Person", PersonDefinition()).value)];
  }
}
