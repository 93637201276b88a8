/**
 * The `TypesGenerator` of swagger-interface-generator: it turns the named
 * schema definitions of a Swagger/OpenAPI document into the records handed to
 * the templater (one interface or enum declaration per definition) and into
 * the text of the barrel file that re-exports them all.
 */
module TypesGenerator {
  import opened Wrappers
  import opened JsStrings
  import opened Sorting
  import opened JsArrays
  import opened SwaggerModel

  /** What a generation pass can throw. */
  datatype Error =
    | NoRefToClean        // the Error thrown by cleanRef for a missing or empty reference
    | MissingItems        // TypeError: reading `items.$ref` of an array property without `items`
    | MissingProperties   // TypeError: `Object.entries` of an object schema without `properties`
    | MissingDefinitions  // TypeError: neither `definitions` nor `components.schemas` is present

  /** One property of a generated interface. */
  datatype InterfaceProperty = InterfaceProperty(name: string, description: Option<string>, tsType: string)

  /** One member of a generated enum. */
  datatype EnumProperty = EnumProperty(name: string, value: string)

  /** One import of a generated interface; the name may be `undefined`. */
  datatype InterfaceImport = InterfaceImport(importedName: Option<string>)

  /** The argument record of `renderInterface` or `renderEnum` for one definition. */
  datatype Declaration =
    | InterfaceDecl(description: Option<string>, name: string, properties: seq<InterfaceProperty>, imports: seq<InterfaceImport>)
    | EnumDecl(description: Option<string>, name: string, members: seq<EnumProperty>)

  /** What `makeTypes` hands to the file writer: each type name with its declaration, and the barrel text. */
  datatype Generated = Generated(files: seq<(string, Declaration)>, barrel: string)

  const DefinitionsPrefix: string := "#/definitions/"
  const SchemasPrefix: string := "#/components/schemas/"

  /** JavaScript truthiness of an optional string: present and not empty. */
  predicate Truthy(s: Option<string>) {
    s.Some? && s.value != ""
  }

  /** The four type tags `extractImport` and `extractPropertyType` treat as primitive. */
  predicate IsPrimitive(tag: Option<string>) {
    tag == Some("string") || tag == Some("integer") || tag == Some("number") || tag == Some("boolean")
  }

  /** How a template literal renders an optional string: `undefined` when absent. */
  function JsText(s: Option<string>): string {
    match s
    case None => "undefined"
    case Some(t) => t
  }

  // ---------------------------------------------------------------------------
  // cleanRef
  // ---------------------------------------------------------------------------

  /** The two `replace` calls of `cleanRef`, applied in order. */
  function CleanName(ref: string): string {
    ReplaceFirst(ReplaceFirst(ref, DefinitionsPrefix, ""), SchemasPrefix, "")
  }

  /** `cleanRef`: throws on a missing or empty reference, otherwise strips the known prefixes. */
  function CleanRef(ref: Option<string>): (r: Result<string, Error>)
    ensures r.Err? <==> !Truthy(ref)
    ensures r.Err? ==> r.error == NoRefToClean
    ensures r.Ok? ==> r.value == CleanName(ref.value)
  {
    if !Truthy(ref) then Err(NoRefToClean) else Ok(CleanName(ref.value))
  }

  /** An OpenAPI v2 reference `#/definitions/N` cleans to `N`. */
  lemma CleanRefDefinitions(name: string)
    requires Lacks(name, '#')
    ensures CleanRef(Some(DefinitionsPrefix + name)) == Ok(name)
  {
    ReplaceLeadingOccurrence(DefinitionsPrefix, name);
    AbsentLeadingChar(name, SchemasPrefix);
  }

  /** An OpenAPI v3 reference `#/components/schemas/N` cleans to `N`. */
  lemma CleanRefSchemas(name: string)
    requires Lacks(name, '#')
    ensures CleanRef(Some(SchemasPrefix + name)) == Ok(name)
  {
    var s := SchemasPrefix + name;
    assert Lacks(s[1..], '#') by {
      assert s[1..] == SchemasPrefix[1..] + name;
    }
    forall j: nat | j <= |s| ensures !OccursAt(s, DefinitionsPrefix, j) {
      if j + |DefinitionsPrefix| <= |s| {
        assert s[j..j + |DefinitionsPrefix|][0] == s[j];
        assert s[j..j + |DefinitionsPrefix|][2] == s[j + 2];
        if j > 0 {
          assert s[1..][j - 1] == s[j];
        }
      }
    }
    ReplaceLeadingOccurrence(SchemasPrefix, name);
  }

  /** A non-empty reference that contains neither prefix is returned unchanged. */
  lemma CleanRefPlain(ref: string)
    requires ref != ""
    requires !Contains(ref, DefinitionsPrefix) && !Contains(ref, SchemasPrefix)
    ensures CleanRef(Some(ref)) == Ok(ref)
  {
  }

  // ---------------------------------------------------------------------------
  // parseType
  // ---------------------------------------------------------------------------

  /** `parseType`: `integer` is `number`, `string` is `Date` for date-time and `string` otherwise, any other tag is kept. */
  function ParseType(tag: Option<string>, format: Option<string>): (r: Option<string>)
    ensures tag == Some("integer") ==> r == Some("number")
    ensures tag == Some("string") && format == Some("date-time") ==> r == Some("Date")
    ensures tag == Some("string") && format != Some("date-time") ==> r == Some("string")
    ensures tag != Some("integer") && tag != Some("string") ==> r == tag
  {
    match tag
    case Some("integer") => Some("number")
    case Some("string") => if format == Some("date-time") then Some("Date") else Some("string")
    case _ => tag
  }

  /** The names `parseType` produces map to themselves: a second pass without a format changes nothing. */
  lemma ParseTypeIdempotent(tag: Option<string>, format: Option<string>)
    ensures ParseType(ParseType(tag, format), None) == ParseType(tag, format)
  {
  }

  // ---------------------------------------------------------------------------
  // extractPropertyType
  // ---------------------------------------------------------------------------

  /** `extractPropertyType`: the TypeScript type of one property. */
  function ExtractPropertyType(p: Property): (r: Result<string, Error>)
    ensures IsPrimitive(p.tag) ==> r == Ok(ParseType(p.tag, p.format).value)
    ensures p.tag == Some("array") && p.items.Some? && Truthy(p.items.value.ref) ==>
      r == Ok(CleanName(p.items.value.ref.value) + "[]")
    ensures p.tag == Some("array") && p.items.Some? && !Truthy(p.items.value.ref) ==>
      r == Ok(JsText(ParseType(p.items.value.tag, None)) + "[]")
    ensures p.tag != Some("array") && !IsPrimitive(p.tag) ==> r == CleanRef(p.ref)
    ensures r.Err? <==>
      (p.tag == Some("array") && p.items.None?) ||
      (p.tag != Some("array") && !IsPrimitive(p.tag) && !Truthy(p.ref))
  {
    if p.tag == Some("array") then
      if p.items.None? then Err(MissingItems)
      else if Truthy(p.items.value.ref) then
        Ok(CleanRef(p.items.value.ref).value + "[]")
      else Ok(JsText(ParseType(p.items.value.tag, None)) + "[]")
    else if IsPrimitive(p.tag) then Ok(ParseType(p.tag, p.format).value)
    else CleanRef(p.ref)
  }

  /** The item format is not passed on: date-time items give `string[]`, while a date-time property gives `Date`. */
  lemma ArrayItemFormatIgnored(itemRef: Option<string>, ref: Option<string>, desc: Option<string>)
    requires !Truthy(itemRef)
    ensures ExtractPropertyType(Property(Some("array"), None, ref, Some(Items(Some("string"), Some("date-time"), itemRef)), desc)) == Ok("string[]")
    ensures ExtractPropertyType(Property(Some("string"), Some("date-time"), ref, None, desc)) == Ok("Date")
  {
    assert "string" + "[]" == "string[]";
  }

  /** An array of references to `N` has type `N[]`; an array of integers has type `number[]`. */
  lemma ArrayTypes(name: string, format: Option<string>)
    requires Lacks(name, '#')
    ensures ExtractPropertyType(Property(Some("array"), None, None, Some(Items(None, None, Some(DefinitionsPrefix + name))), None)) == Ok(name + "[]")
    ensures ExtractPropertyType(Property(Some("array"), None, None, Some(Items(Some("integer"), format, None)), None)) == Ok("number[]")
  {
    CleanRefDefinitions(name);
    assert "number" + "[]" == "number[]";
  }

  // ---------------------------------------------------------------------------
  // extractImport
  // ---------------------------------------------------------------------------

  /**
   * The name `extractImport` resolves for a non-primitive property: the
   * property's own `$ref` when there is one, else the `$ref` of its array
   * items, else `undefined`.
   */
  function ResolvedName(p: Property): (r: Option<string>)
    requires p.tag == Some("array") ==> p.items.Some?
    ensures Truthy(p.ref) ==> r == Some(CleanName(p.ref.value))
    ensures !Truthy(p.ref) && p.tag == Some("array") && Truthy(p.items.value.ref) ==>
      r == Some(CleanName(p.items.value.ref.value))
    ensures !Truthy(p.ref) && !(p.tag == Some("array") && Truthy(p.items.value.ref)) ==> r == None
  {
    if Truthy(p.ref) then Some(CleanName(p.ref.value))
    else if p.tag == Some("array") && Truthy(p.items.value.ref) then Some(CleanName(p.items.value.ref.value))
    else None
  }

  /** What `extractImport` returns for one property of the schema `name`; `Ok(None)` is `undefined`. */
  function ImportFor(name: string, p: Property): (r: Result<Option<InterfaceImport>, Error>)
    ensures IsPrimitive(p.tag) ==> r == Ok(None)
    ensures r.Err? <==> p.tag == Some("array") && p.items.None?
    ensures r.Err? ==> r.error == MissingItems
    ensures r.Ok? && r.value.Some? ==> r.value.value.importedName != Some(name)
    ensures !IsPrimitive(p.tag) && Truthy(p.ref) && r.Ok? ==>
      r.value == (if CleanName(p.ref.value) == name then None else Some(InterfaceImport(Some(CleanName(p.ref.value)))))
    ensures p.tag == Some("array") && p.items.Some? && Truthy(p.items.value.ref) && !Truthy(p.ref) ==>
      r == Ok(if CleanName(p.items.value.ref.value) == name then None
              else Some(InterfaceImport(Some(CleanName(p.items.value.ref.value)))))
    ensures !IsPrimitive(p.tag) && !Truthy(p.ref) && (p.tag == Some("array") ==> p.items.Some? && !Truthy(p.items.value.ref)) ==>
      r == Ok(Some(InterfaceImport(None)))
  {
    if IsPrimitive(p.tag) then Ok(None)
    else if p.tag == Some("array") && p.items.None? then Err(MissingItems)
    else
      var resolved := ResolvedName(p);
      if resolved == Some(name) then Ok(None) else Ok(Some(InterfaceImport(resolved)))
  }

  /** `extractImport` as written: a mutable `importedName` set by two `if`s, the later one overriding. */
  method ExtractImport(name: string, p: Property) returns (r: Result<Option<InterfaceImport>, Error>)
    ensures r == ImportFor(name, p)
  {
    if IsPrimitive(p.tag) {
      return Ok(None);
    }
    var importedName: Option<string> := None;
    if p.tag == Some("array") {
      if p.items.None? {
        return Err(MissingItems);
      }
      if Truthy(p.items.value.ref) {
        var cleaned := CleanRef(p.items.value.ref);
        importedName := Some(cleaned.value);
      }
    }
    if Truthy(p.ref) {
      var cleaned := CleanRef(p.ref);
      importedName := Some(cleaned.value);
    }
    if importedName == Some(name) {
      return Ok(None);
    }
    return Ok(Some(InterfaceImport(importedName)));
  }

  /** A property's own `$ref` wins over the `$ref` of its array items. */
  lemma OwnRefOverridesItemRef(name: string, p: Property)
    requires p.tag == Some("array") && p.items.Some? && Truthy(p.items.value.ref) && Truthy(p.ref)
    requires CleanName(p.ref.value) != name
    ensures ImportFor(name, p) == Ok(Some(InterfaceImport(Some(CleanName(p.ref.value)))))
  {
  }

  /** A reference to the owning schema itself yields no import. */
  lemma SelfImportElided(name: string, p: Property)
    requires !IsPrimitive(p.tag) && !(p.tag == Some("array") && p.items.None?)
    requires ResolvedName(p) == Some(name)
    ensures ImportFor(name, p) == Ok(None)
  {
  }

  /**
   * An array of primitives (no item `$ref`, no own `$ref`) yields an import
   * whose name is `undefined`; that record is truthy, so it is kept.
   */
  lemma ArrayOfPrimitivesYieldsUndefinedImport(name: string, p: Property)
    requires p.tag == Some("array") && p.items.Some? && !Truthy(p.items.value.ref) && !Truthy(p.ref)
    ensures ImportFor(name, p) == Ok(Some(InterfaceImport(None)))
    ensures ImportsOf(name, [("p", p)]) == Ok([InterfaceImport(None)])
  {
    var props := [("p", p)];
    var r := ImportResults(name, props);
    assert props[0].1 == p;
    assert r.Ok? && r.value == [Some(InterfaceImport(None))];
    assert r.value[1..] == [];
    assert Defined(r.value) == [InterfaceImport(None)];
    assert ImportsOf(name, props) == Ok(Defined(r.value));
  }

  // ---------------------------------------------------------------------------
  // makeProperties and makeImports
  // ---------------------------------------------------------------------------

  /** The `map` of `makeProperties` over the entries of `properties`. */
  function PropertiesOf(props: seq<(string, Property)>): (r: Result<seq<InterfaceProperty>, Error>)
    ensures r.Ok? <==> forall i :: 0 <= i < |props| ==> ExtractPropertyType(props[i].1).Ok?
    ensures r.Ok? ==> |r.value| == |props|
    ensures r.Ok? ==> forall i :: 0 <= i < |props| ==>
      r.value[i] == InterfaceProperty(props[i].0, props[i].1.description, ExtractPropertyType(props[i].1).value)
    ensures r.Err? ==> exists i :: 0 <= i < |props| && ExtractPropertyType(props[i].1) == Err(r.error) &&
                                  forall j :: 0 <= j < i ==> ExtractPropertyType(props[j].1).Ok?
  {
    if props == [] then Ok([])
    else
      var t :- ExtractPropertyType(props[0].1);
      var rest := PropertiesOf(props[1..]);
      if rest.Err? then
        ghost var k :| 0 <= k < |props[1..]| && ExtractPropertyType(props[1..][k].1) == Err(rest.error) &&
          forall j :: 0 <= j < k ==> ExtractPropertyType(props[1..][j].1).Ok?;
        assert ExtractPropertyType(props[k + 1].1) == Err(rest.error);
        Err(rest.error)
      else
        Ok([InterfaceProperty(props[0].0, props[0].1.description, t)] + rest.value)
  }

  /** `makeProperties`: one entry per property, in order; an absent `properties` throws. */
  function MakeProperties(def: Definition): (r: Result<seq<InterfaceProperty>, Error>)
    ensures def.properties.None? ==> r == Err(MissingProperties)
    ensures def.properties.Some? ==> r == PropertiesOf(def.properties.value)
  {
    match def.properties
    case None => Err(MissingProperties)
    case Some(props) => PropertiesOf(props)
  }

  /** The `map` of `makeImports`: `extractImport` of every property, in order. */
  function ImportResults(name: string, props: seq<(string, Property)>): (r: Result<seq<Option<InterfaceImport>>, Error>)
    ensures r.Ok? <==> forall i :: 0 <= i < |props| ==> ImportFor(name, props[i].1).Ok?
    ensures r.Err? ==> r.error == MissingItems
    ensures r.Ok? ==> |r.value| == |props|
    ensures r.Ok? ==> forall i :: 0 <= i < |props| ==> r.value[i] == ImportFor(name, props[i].1).value
  {
    if props == [] then Ok([])
    else
      var head :- ImportFor(name, props[0].1);
      var rest :- ImportResults(name, props[1..]);
      Ok([head] + rest)
  }

  /** `filter(Boolean)` on the results of `extractImport`: keeps the defined entries, in order. */
  function Defined(xs: seq<Option<InterfaceImport>>): (r: seq<InterfaceImport>)
    ensures |r| <= |xs|
  {
    if xs == [] then []
    else
      (if xs[0].Some? then [xs[0].value] else []) + Defined(xs[1..])
  }

  /** Every kept entry was defined in the input. */
  lemma {:induction false} DefinedFrom(xs: seq<Option<InterfaceImport>>)
    ensures forall k :: 0 <= k < |Defined(xs)| ==> Some(Defined(xs)[k]) in xs
  {
    if xs != [] {
      DefinedFrom(xs[1..]);
      var tail := Defined(xs[1..]);
      var front := if xs[0].Some? then [xs[0].value] else [];
      assert Defined(xs) == front + tail;
      forall k | |front| <= k < |Defined(xs)| ensures Some(Defined(xs)[k]) in xs {
        assert Defined(xs)[k] == tail[k - |front|];
        assert Some(tail[k - |front|]) in xs[1..];
      }
    }
  }

  /** Strictly increasing positions. */
  predicate Increasing(s: seq<nat>) {
    forall k, l :: 0 <= k < l < |s| ==> s[k] < s[l]
  }

  /** Every position moved one place to the right. */
  function Shift(s: seq<nat>): (r: seq<nat>)
    ensures |r| == |s| && forall k :: 0 <= k < |s| ==> r[k] == s[k] + 1
  {
    if s == [] then [] else [s[0] + 1] + Shift(s[1..])
  }

  lemma ShiftIncreasing(s: seq<nat>, front: seq<nat>)
    requires Increasing(s)
    requires front == [] || front == [0]
    ensures Increasing(front + Shift(s))
  {
    var t := front + Shift(s);
    forall k, l | 0 <= k < l < |t| ensures t[k] < t[l] {
      if front == [] {
        assert t[k] == s[k] + 1 && t[l] == s[l] + 1;
      } else if k > 0 {
        assert t[k] == s[k - 1] + 1 && t[l] == s[l - 1] + 1;
      } else {
        assert t[l] == s[l - 1] + 1;
      }
    }
  }

  /** `idx` gives, for each kept entry, the position it was kept from; every other position is `undefined`. */
  lemma {:induction false} DefinedIndexed(xs: seq<Option<InterfaceImport>>) returns (idx: seq<nat>)
    ensures |idx| == |Defined(xs)|
    ensures forall k :: 0 <= k < |idx| ==> idx[k] < |xs| && xs[idx[k]] == Some(Defined(xs)[k])
    ensures Increasing(idx)
    ensures forall i :: 0 <= i < |xs| && i !in idx ==> xs[i] == None
  {
    if xs == [] {
      return [];
    }
    var rest := DefinedIndexed(xs[1..]);
    var shifted := Shift(rest);
    var tail := Defined(xs[1..]);
    var front: seq<nat> := if xs[0].Some? then [0] else [];
    var kept := Defined(xs);
    assert kept == (if xs[0].Some? then [xs[0].value] else []) + tail;
    idx := front + shifted;
    ShiftIncreasing(rest, front);
    forall k | 0 <= k < |idx| ensures idx[k] < |xs| && xs[idx[k]] == Some(kept[k]) {
      if k >= |front| {
        var m := k - |front|;
        assert idx[k] == rest[m] + 1;
        assert xs[1..][rest[m]] == xs[idx[k]];
        assert kept[k] == tail[m];
      }
    }
    forall i | 0 <= i < |xs| && i !in idx ensures xs[i] == None {
      if i > 0 {
        assert xs[1..][i - 1] == xs[i];
      }
    }
  }

  /** The `map` then `filter(Boolean)` of `makeImports` over the values of `properties`. */
  function ImportsOf(name: string, props: seq<(string, Property)>): (r: Result<seq<InterfaceImport>, Error>)
    ensures r.Ok? <==> forall i :: 0 <= i < |props| ==> ImportFor(name, props[i].1).Ok?
    ensures r.Err? ==> r.error == MissingItems
    ensures r.Ok? ==> |r.value| <= |props|
    ensures r.Ok? ==> forall k :: 0 <= k < |r.value| ==> r.value[k].importedName != Some(name)
  {
    var results :- ImportResults(name, props);
    DefinedFrom(results);
    Ok(Defined(results))
  }

  /**
   * The imports are exactly the non-`undefined` results of `extractImport`,
   * in property order: `idx` gives, for each import, the property it came from.
   */
  lemma ImportsOfIndexed(name: string, props: seq<(string, Property)>) returns (idx: seq<nat>)
    requires ImportsOf(name, props).Ok?
    ensures |idx| == |ImportsOf(name, props).value|
    ensures forall k :: 0 <= k < |idx| ==> idx[k] < |props| && ImportFor(name, props[idx[k]].1) == Ok(Some(ImportsOf(name, props).value[k]))
    ensures Increasing(idx)
    ensures forall i :: 0 <= i < |props| && i !in idx ==> ImportFor(name, props[i].1) == Ok(None)
  {
    idx := DefinedIndexed(ImportResults(name, props).value);
  }

  /** Imports are not deduplicated: the same property twice gives the same import twice. */
  lemma ImportsNotDeduplicated(name: string, a: string, b: string, p: Property, imp: InterfaceImport)
    requires ImportFor(name, p) == Ok(Some(imp))
    ensures ImportsOf(name, [(a, p), (b, p)]) == Ok([imp, imp])
  {
    var props := [(a, p), (b, p)];
    var r := ImportResults(name, props);
    assert props[0].1 == p && props[1].1 == p;
    assert r.Ok? && r.value == [Some(imp), Some(imp)];
    assert r.value[1..][1..] == [];
    assert Defined(r.value[1..]) == [imp];
    assert Defined(r.value) == [imp, imp];
    assert ImportsOf(name, props) == Ok(Defined(r.value));
  }

  /** Once every property type is known, no import can fail: `makeImports` never throws after `makeProperties`. */
  lemma {:induction false} ImportsSucceedAfterProperties(name: string, props: seq<(string, Property)>)
    requires PropertiesOf(props).Ok?
    ensures ImportsOf(name, props).Ok?
  {
    forall i | 0 <= i < |props| ensures ImportFor(name, props[i].1).Ok? {
      assert ExtractPropertyType(props[i].1).Ok?;
    }
  }

  /** `makeImports`: an absent `properties` throws. */
  function MakeImports(name: string, def: Definition): (r: Result<seq<InterfaceImport>, Error>)
    ensures def.properties.None? ==> r == Err(MissingProperties)
    ensures def.properties.Some? ==> r == ImportsOf(name, def.properties.value)
  {
    match def.properties
    case None => Err(MissingProperties)
    case Some(props) => ImportsOf(name, props)
  }

  // ---------------------------------------------------------------------------
  // The two declaration kinds and the dispatch between them
  // ---------------------------------------------------------------------------

  /** The record `makeOneInterfaceFileString` passes to `renderInterface`. */
  function MakeInterface(name: string, def: Definition): (r: Result<Declaration, Error>)
    ensures r.Ok? <==> MakeProperties(def).Ok?
    ensures r.Ok? ==>
      r.value == InterfaceDecl(def.description, name, MakeProperties(def).value, MakeImports(name, def).value)
    ensures r.Err? ==> r.error == MakeProperties(def).error
  {
    var properties :- MakeProperties(def);
    ImportsSucceedAfterProperties(name, def.properties.value);
    Ok(InterfaceDecl(def.description, name, properties, MakeImports(name, def).value))
  }

  /** The `map` of `makeOneEnumFileString`: each literal upper-cased as the name, kept as the value. */
  function EnumMembers(values: seq<string>): (r: seq<EnumProperty>)
    ensures |r| == |values|
    ensures forall i :: 0 <= i < |values| ==> r[i].value == values[i] && r[i].name == ToUpperAscii(values[i])
  {
    if values == [] then []
    else [EnumProperty(ToUpperAscii(values[0]), values[0])] + EnumMembers(values[1..])
  }

  /** The record passed to `renderEnum`. */
  function MakeEnum(name: string, def: Definition): (r: Declaration)
    requires def.enum.Some?
    ensures r.EnumDecl? && r.name == name && r.description == def.description
    ensures r.members == EnumMembers(def.enum.value)
  {
    EnumDecl(def.description, name, EnumMembers(def.enum.value))
  }

  /** The dispatch of `makeTypes`: an `enum` field, even an empty one, selects the enum path. */
  function MakeDeclaration(name: string, def: Definition): (r: Result<Declaration, Error>)
    ensures def.enum.Some? ==> r == Ok(MakeEnum(name, def))
    ensures def.enum.Some? ==> r.Ok? && r.value.EnumDecl? && r.value.members == EnumMembers(def.enum.value)
    ensures r.Ok? ==> (r.value.EnumDecl? <==> def.enum.Some?)
    ensures r.Ok? ==> r.value.name == name && r.value.description == def.description
    ensures def.enum.None? ==> r == MakeInterface(name, def)
  {
    if def.enum.Some? then Ok(MakeEnum(name, def)) else MakeInterface(name, def)
  }

  /** An empty `enum` gives an enum with no members, whatever `properties` holds. */
  lemma EmptyEnumIsEnum(name: string, def: Definition)
    requires def.enum == Some([])
    ensures MakeDeclaration(name, def) == Ok(EnumDecl(def.description, name, []))
  {
  }

  // ---------------------------------------------------------------------------
  // makeTypes
  // ---------------------------------------------------------------------------

  /** `swaggerObject.definitions || swaggerObject.components.schemas`; reading through an absent field throws. */
  function ChooseDefinitions(doc: Swagger): (r: Result<Definitions, Error>)
    ensures doc.definitions.Some? ==> r == Ok(doc.definitions.value)
    ensures doc.definitions.None? ==>
      (r.Ok? <==> doc.components.Some? && doc.components.value.schemas.Some?)
    ensures doc.definitions.None? && r.Ok? ==> r.value == doc.components.value.schemas.value
    ensures r.Err? ==> r.error == MissingDefinitions
  {
    if doc.definitions.Some? then Ok(doc.definitions.value)
    else if doc.components.None? || doc.components.value.schemas.None? then Err(MissingDefinitions)
    else Ok(doc.components.value.schemas.value)
  }

  /** `Object.keys(definitions)`. */
  function TypeNames(defs: Definitions): (r: seq<string>)
    ensures |r| == |defs|
    ensures forall i :: 0 <= i < |defs| ==> r[i] == defs[i].0
  {
    if defs == [] then [] else [defs[0].0] + TypeNames(defs[1..])
  }

  /** The `map` of `makeTypes` over the entries of `definitions`, each paired with its name. */
  function MakeDeclarations(defs: Definitions): (r: Result<seq<(string, Declaration)>, Error>)
    ensures r.Ok? <==> forall i :: 0 <= i < |defs| ==> MakeDeclaration(defs[i].0, defs[i].1).Ok?
    ensures r.Ok? ==> |r.value| == |defs|
    ensures r.Ok? ==> forall i :: 0 <= i < |defs| ==>
      r.value[i] == (defs[i].0, MakeDeclaration(defs[i].0, defs[i].1).value)
    ensures r.Err? ==> exists i :: 0 <= i < |defs| && MakeDeclaration(defs[i].0, defs[i].1) == Err(r.error) &&
                                  forall j :: 0 <= j < i ==> MakeDeclaration(defs[j].0, defs[j].1).Ok?
  {
    if defs == [] then Ok([])
    else
      var d :- MakeDeclaration(defs[0].0, defs[0].1);
      var rest := MakeDeclarations(defs[1..]);
      if rest.Err? then
        ghost var k :| 0 <= k < |defs[1..]| && MakeDeclaration(defs[1..][k].0, defs[1..][k].1) == Err(rest.error) &&
          forall j :: 0 <= j < k ==> MakeDeclaration(defs[1..][j].0, defs[1..][j].1).Ok?;
        assert MakeDeclaration(defs[k + 1].0, defs[k + 1].1) == Err(rest.error);
        Err(rest.error)
      else
        Ok([(defs[0].0, d)] + rest.value)
  }

  /** The barrel line for one type name. */
  function ExportLine(name: string): string {
    "export { " + name + " } from './" + name + "';\n"
  }

  /** The `map` of the barrel construction. */
  function ExportLines(names: seq<string>): (r: seq<string>)
    ensures |r| == |names|
    ensures forall i :: 0 <= i < |names| ==> r[i] == ExportLine(names[i])
  {
    MapStrings(ExportLine, names)
  }

  /** The barrel file: the export lines, sorted, then joined. */
  function Barrel(names: seq<string>): string {
    Concat(SortStrings(ExportLines(names)))
  }

  /** The barrel holds one export line per type name, in sorted order, and nothing else. */
  lemma BarrelLines(names: seq<string>) returns (lines: seq<string>)
    ensures Barrel(names) == Concat(lines)
    ensures Sorted(lines) && |lines| == |names|
    ensures multiset(lines) == multiset(ExportLines(names))
    ensures forall n :: n in names ==> ExportLine(n) in lines
  {
    lines := SortStrings(ExportLines(names));
    assert |multiset(lines)| == |multiset(ExportLines(names))|;
    forall n | n in names ensures ExportLine(n) in lines {
      var i :| 0 <= i < |names| && names[i] == n;
      assert ExportLines(names)[i] == ExportLine(n);
      assert ExportLine(n) in multiset(ExportLines(names));
    }
  }

  /** Two passes over the same type names, in any order, produce the same barrel text. */
  lemma BarrelOrderIndependent(a: seq<string>, b: seq<string>)
    requires multiset(a) == multiset(b)
    ensures Barrel(a) == Barrel(b)
  {
    MapPermutation(ExportLine, a, b);
    SortOrderIndependent(ExportLines(a), ExportLines(b));
  }

  /** The pure data flow of `makeTypes`: every declaration with its type name, and the barrel. */
  function MakeTypes(doc: Swagger): (r: Result<Generated, Error>)
    ensures ChooseDefinitions(doc).Err? ==> r == Err(MissingDefinitions)
    ensures r.Ok? ==> ChooseDefinitions(doc).Ok? && MakeDeclarations(ChooseDefinitions(doc).value).Ok?
    ensures r.Ok? ==>
      var defs := ChooseDefinitions(doc).value;
      && |r.value.files| == |defs|
      && (forall i :: 0 <= i < |defs| ==> r.value.files[i].0 == TypeNames(defs)[i])
      && r.value.barrel == Barrel(TypeNames(defs))
    ensures ChooseDefinitions(doc).Ok? ==> (r.Ok? <==> MakeDeclarations(ChooseDefinitions(doc).value).Ok?)
    ensures r.Ok? ==> r.value.files == MakeDeclarations(ChooseDefinitions(doc).value).value
    ensures r.Err? && ChooseDefinitions(doc).Ok? ==> r.error == MakeDeclarations(ChooseDefinitions(doc).value).error
  {
    var defs :- ChooseDefinitions(doc);
    var files :- MakeDeclarations(defs);
    Ok(Generated(files, Barrel(TypeNames(defs))))
  }
}
