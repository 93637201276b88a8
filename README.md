# swagger-interface-generator: the `TypesGenerator` model

`TypesGenerator` (src/workers/interface-generator.class.ts) reads the named
schema definitions of a Swagger/OpenAPI document. It turns each one into the
record that the templater renders: an interface for an object schema, an enum
for a schema with an `enum` list. It also builds the text of the barrel file
(`index.ts`) that re-exports every generated type.

The model is pure Dafny, because the class has no mutable state. Its
collaborators (templater, file writer) are injected and are left out.

- `SwaggerModel` (swagger_model.dfy) holds the fields the generator reads:
  `type` (called `tag`, since `type` is a Dafny keyword), `format`, `$ref`
  (called `ref`), `items`, `description`, `properties` and `enum`. A
  JavaScript object is a sequence of `(key, value)` pairs in `Object.entries`
  order. An absent field is `None`.
- `TypesGenerator` (types_generator.dfy) models the generator. Each private
  method is a function. `extractImport` is also given as a method, written the
  way the source writes it (a mutable `importedName` set by two `if`s, the
  later one winning), and proved equal to the declarative `ImportFor`. A
  thrown exception is a `Result` error:
  - `NoRefToClean` is the `Error` that `cleanRef` throws.
  - `MissingItems`, `MissingProperties` and `MissingDefinitions` are the
    JavaScript `TypeError`s raised when the code reads through an absent
    `items`, `properties`, or `components.schemas`.
- `JsStrings`, `JsArrays` and `Sorting` hold the JavaScript built-ins the code relies on:
  `String.prototype.replace` with a string pattern (first occurrence only),
  `toUpperCase` on ASCII, `join('')`, `map`, and the default `sort` of
  strings. The sort is an insertion sort. It is proved to return an ordered
  permutation, and the ordered permutation is proved unique.
- `Scenarios` (scenarios.dfy) works through one document end to end. It has
  an object schema `Pet` with a string `name` and an `owner` that references
  the enum schema `Person` (`["ADMIN", "user"]`).

In four places the code behaves otherwise than a reader might expect, and
the model follows the code:

- Imports are not deduplicated. Two properties referencing `Person` give two
  imports (`ImportsNotDeduplicated`).
- A non-primitive property with neither an item `$ref` nor its own `$ref`
  (an array of primitives, say) gives the import record
  `{importedName: undefined}`. The record is truthy, so `filter(Boolean)`
  keeps it (`ArrayOfPrimitivesYieldsUndefinedImport`).
- Unknown type tags, including an absent one, are treated as references
  (`ExtractPropertyType`). They fail only when the `$ref` is missing or empty.
- An array without `items` and an object schema without `properties` are not
  validated. They make the code throw a `TypeError`, and the model returns
  the matching error.

## Model

| member | source | states |
|---|---|---|
| `TypesGenerator.CleanRef` | src/workers/interface-generator.class.ts:113-120 | fails with `NoRefToClean` exactly when the reference is missing or empty; otherwise strips the first `#/definitions/`, then the first `#/components/schemas/` |
| `TypesGenerator.CleanRefDefinitions` | src/workers/interface-generator.class.ts:117-119 | `#/definitions/N` cleans to `N` (for a name without `#`) |
| `TypesGenerator.CleanRefSchemas` | src/workers/interface-generator.class.ts:117-119 | `#/components/schemas/N` cleans to `N` (for a name without `#`) |
| `TypesGenerator.CleanRefPlain` | src/workers/interface-generator.class.ts:113-120 | a non-empty reference containing neither prefix is returned unchanged |
| `JsStrings.IndexOf` | src/workers/interface-generator.class.ts:118-119 | the index found is an occurrence of the pattern and no earlier index is; none is found exactly when the pattern does not occur |
| `JsStrings.IndexFrom` | src/workers/interface-generator.class.ts:118-119 | the first occurrence at or after a start index, or none when there is none |
| `JsStrings.ReplaceFirst` | src/workers/interface-generator.class.ts:118-119 | `replace` with a string pattern leaves a string without the pattern unchanged; otherwise it replaces exactly the first occurrence and keeps everything around it |
| `JsStrings.ReplaceLeadingOccurrence` | src/workers/interface-generator.class.ts:118 | removing a pattern that starts the string leaves the rest |
| `JsStrings.AbsentLeadingChar` | src/workers/interface-generator.class.ts:119 | a pattern cannot occur in a string lacking its first character |
| `TypesGenerator.ParseType` | src/workers/interface-generator.class.ts:122-136 | `integer` is `number`; `string` is `Date` with format `date-time` and `string` otherwise; every other tag, an absent one included, is returned unchanged |
| `TypesGenerator.ParseTypeIdempotent` | src/workers/interface-generator.class.ts:122-136 | the names `parseType` produces map to themselves when parsed again without a format |
| `TypesGenerator.ExtractPropertyType` | src/workers/interface-generator.class.ts:98-111 | primitives go through `parseType` with their format; arrays give the cleaned item `$ref` plus `[]`, or the parsed item type (with no format) plus `[]`; every other tag gives the cleaned own `$ref`; fails exactly for an array without `items` or a non-primitive, non-array property without a usable `$ref` |
| `TypesGenerator.ArrayItemFormatIgnored` | src/workers/interface-generator.class.ts:100-107 | string items with format `date-time` give `string[]`, while a `date-time` string property gives `Date` |
| `TypesGenerator.ArrayTypes` | src/workers/interface-generator.class.ts:100-103 | items referencing `N` give `N[]`; integer items give `number[]` |
| `TypesGenerator.ResolvedName` | src/workers/interface-generator.class.ts:143-151 | the property's own cleaned `$ref` when there is one; else, for an array, the cleaned item `$ref` when there is one; else `undefined` |
| `TypesGenerator.ImportFor` | src/workers/interface-generator.class.ts:138-160 | primitives give no import; fails exactly for an array without `items`; never imports the owning schema; with an own `$ref` the import is its cleaned name unless that is the schema's own name; for an array with an item `$ref` and no own `$ref`, the cleaned item name unless that is the schema's own name; with neither, `{importedName: undefined}` |
| `TypesGenerator.ExtractImport` | src/workers/interface-generator.class.ts:138-160 | the sequential two-`if` computation of `importedName` returns exactly `ImportFor` |
| `TypesGenerator.OwnRefOverridesItemRef` | src/workers/interface-generator.class.ts:145-151 | when both an item `$ref` and an own `$ref` are set, the own `$ref` is imported |
| `TypesGenerator.SelfImportElided` | src/workers/interface-generator.class.ts:153-155 | a property resolving to the owning schema's name yields no import |
| `TypesGenerator.ArrayOfPrimitivesYieldsUndefinedImport` | src/workers/interface-generator.class.ts:143-159 | an array with no item `$ref` and no own `$ref` yields `{importedName: undefined}`, and `makeImports` keeps it |
| `TypesGenerator.PropertiesOf` | src/workers/interface-generator.class.ts:83-89 | exactly one entry per property, in input order, with the property's name, description and type; fails exactly when some property type fails, with the first failure |
| `TypesGenerator.MakeProperties` | src/workers/interface-generator.class.ts:82-90 | an absent `properties` throws; otherwise the mapped entries |
| `TypesGenerator.ImportResults` | src/workers/interface-generator.class.ts:93-94 | one `extractImport` result per property, in order; fails exactly when one of them fails |
| `TypesGenerator.Defined` | src/workers/interface-generator.class.ts:95 | `filter(Boolean)` keeps at most as many entries as it is given |
| `TypesGenerator.DefinedFrom` | src/workers/interface-generator.class.ts:95 | every kept entry was present in the input |
| `TypesGenerator.DefinedIndexed` | src/workers/interface-generator.class.ts:95 | the kept entries are the defined inputs, at strictly increasing positions, and every position not kept is `undefined` |
| `TypesGenerator.ShiftIncreasing` | src/workers/interface-generator.class.ts:95 | shifting increasing positions keeps them increasing |
| `TypesGenerator.Shift` | src/workers/interface-generator.class.ts:95 | every position moves one place to the right |
| `TypesGenerator.ImportsOf` | src/workers/interface-generator.class.ts:92-96 | at most one import per property, never the schema itself; fails only with `MissingItems` and exactly when some `extractImport` fails |
| `TypesGenerator.ImportsOfIndexed` | src/workers/interface-generator.class.ts:92-96 | the imports are exactly the non-`undefined` `extractImport` results, in property order |
| `TypesGenerator.ImportsNotDeduplicated` | src/workers/interface-generator.class.ts:92-96 | the same import from two properties appears twice |
| `TypesGenerator.ImportsSucceedAfterProperties` | src/workers/interface-generator.class.ts:60-61 | once `makeProperties` succeeds, `makeImports` cannot throw |
| `TypesGenerator.MakeImports` | src/workers/interface-generator.class.ts:92-96 | an absent `properties` throws; otherwise the filtered imports |
| `TypesGenerator.MakeInterface` | src/workers/interface-generator.class.ts:59-69 | the `renderInterface` record holds the description, the name, the properties and the imports; it fails exactly when `makeProperties` fails, with its error |
| `TypesGenerator.EnumMembers` | src/workers/interface-generator.class.ts:75-78 | one member per literal, same order, `value` the literal and `name` its upper-cased form |
| `TypesGenerator.MakeEnum` | src/workers/interface-generator.class.ts:71-80 | the `renderEnum` record holds the description, the name and the members |
| `TypesGenerator.MakeDeclaration` | src/workers/interface-generator.class.ts:42-46 | when `enum` is present the result is the `makeOneEnumFileString` record, with the upper-cased members, and it never fails; otherwise it is the `makeOneInterfaceFileString` result; the record keeps the name and description |
| `TypesGenerator.EmptyEnumIsEnum` | src/workers/interface-generator.class.ts:42 | an empty `enum` list still selects the enum path, giving no members |
| `TypesGenerator.ChooseDefinitions` | src/workers/interface-generator.class.ts:36-37 | OpenAPI v2 `definitions` is preferred; otherwise v3 `components.schemas`; reading through an absent `components` or `schemas` throws |
| `TypesGenerator.TypeNames` | src/workers/interface-generator.class.ts:39 | the keys of the definitions, in entry order |
| `TypesGenerator.MakeDeclarations` | src/workers/interface-generator.class.ts:40-47 | one record per definition, in order, paired with its name; fails exactly when one definition fails, with the first failure |
| `TypesGenerator.ExportLines` | src/workers/interface-generator.class.ts:53 | one `export { N } from './N';` line per name, in order |
| `TypesGenerator.BarrelLines` | src/workers/interface-generator.class.ts:52-55 | the barrel is the concatenation of sorted lines that are a permutation of the export lines: one per type name, none missing |
| `TypesGenerator.BarrelOrderIndependent` | src/workers/interface-generator.class.ts:52-55 | type names in any order give the same barrel text |
| `TypesGenerator.MakeTypes` | src/workers/interface-generator.class.ts:33-57 | the file list pairs `typeNames[i]` with the i-th declaration record; once a definitions container is found, the pass succeeds exactly when every declaration does, and otherwise returns the first declaration's error; the barrel is built from the keys; a missing definitions container throws |
| `JsStrings.ToUpperAscii` | src/workers/interface-generator.class.ts:76 | same length, each ASCII lower-case letter upper-cased and every other character kept |
| `JsStrings.ToUpperAsciiIdempotent` | src/workers/interface-generator.class.ts:76 | upper-casing twice is upper-casing once |
| `JsStrings.Concat` | src/workers/interface-generator.class.ts:55 | joining a single line gives that line |
| `JsStrings.ConcatAppend` | src/workers/interface-generator.class.ts:55 | joining two runs of lines is joining each and concatenating the results |
| `Sorting.LexLeTotal` | src/workers/interface-generator.class.ts:54 | any two strings are comparable |
| `Sorting.LexLeAntisymmetric` | src/workers/interface-generator.class.ts:54 | strings ordered both ways are equal |
| `Sorting.LexLeTransitive` | src/workers/interface-generator.class.ts:54 | the string order is transitive |
| `Sorting.LexLeCommonPrefix` | src/workers/interface-generator.class.ts:54 | a common prefix does not change the order |
| `Sorting.Insert` | src/workers/interface-generator.class.ts:54 | insertion adds exactly one copy of the element |
| `Sorting.InsertSorted` | src/workers/interface-generator.class.ts:54 | insertion into a sorted sequence keeps it sorted |
| `Sorting.SortStrings` | src/workers/interface-generator.class.ts:54 | the result is sorted and a permutation of the input |
| `Sorting.SortedHeadIsLeast` | src/workers/interface-generator.class.ts:54 | the head of a sorted sequence is its least element |
| `Sorting.MultisetTail` | src/workers/interface-generator.class.ts:54 | dropping the head removes one copy of it |
| `Sorting.SortedUnique` | src/workers/interface-generator.class.ts:54 | two sorted permutations of the same elements are equal |
| `Sorting.SortPair` | src/workers/interface-generator.class.ts:54 | two strings come out in their lexicographic order |
| `Sorting.SortOrderIndependent` | src/workers/interface-generator.class.ts:54 | sorting depends only on the elements, not their order |
| `JsArrays.MapStrings` | src/workers/interface-generator.class.ts:53 | `map` keeps the length and applies the function to each element in place |
| `JsArrays.MapAppend` | src/workers/interface-generator.class.ts:53 | mapping a concatenation concatenates the mapped parts |
| `JsArrays.MapHead` | src/workers/interface-generator.class.ts:53 | the mapped head contributes one copy of its image |
| `JsArrays.RemoveAt` | src/workers/interface-generator.class.ts:54 | removing one element removes one copy of it |
| `JsArrays.SplitAt` | src/workers/interface-generator.class.ts:54 | a sequence is its prefix, its element and its suffix |
| `JsArrays.MapRemoveAt` | src/workers/interface-generator.class.ts:53 | removing one element before mapping removes one copy of its image |
| `JsArrays.MapPermutation` | src/workers/interface-generator.class.ts:53 | mapping a permutation gives a permutation |
| `Scenarios.PetInterface` | src/workers/interface-generator.class.ts:59-69 | `Pet` becomes an interface with `name: string`, `owner: Person` and the single import `Person` |
| `Scenarios.PersonEnum` | src/workers/interface-generator.class.ts:71-80 | `Person` becomes an enum with members `ADMIN = "ADMIN"` and `USER = "user"` |
| `Scenarios.PersonLineBeforePetLine` | src/workers/interface-generator.class.ts:54 | the `Person` export line sorts before the `Pet` line |
| `Scenarios.BarrelPair` | src/workers/interface-generator.class.ts:52-55 | the barrel of two names lists the smaller export line first |
| `Scenarios.PetStoreBarrel` | src/workers/interface-generator.class.ts:52-55 | the barrel of `Pet` and `Person` lists `Person` first |
| `Scenarios.PetStoreGenerated` | src/workers/interface-generator.class.ts:33-57 | the whole pass gives both records, in definition order, and the sorted barrel |

## Left out

- `console.log` (line 34) and the `FsOperator` calls `saveInterfaceFile` and `saveIndexFile` are file-system I/O. The model keeps what they receive: `Generated.files` pairs each type name with its record, and `Generated.barrel` is the index text.
- `Templater.renderInterface` and `renderEnum` are a text-templating collaborator whose source is not part of this model. The model stops at the records passed to them (`Declaration`), not the rendered text. The enum record's `properties` field is called `members`.
- The constructor, which only stores the injected templater and file writer, is not modelled.
- `JsStrings.ToUpperAscii`: upper-cases ASCII letters only. It does not model full Unicode `toUpperCase`, whose case maps can change a string's length.
- `Sorting.SortStrings`: orders strings by Dafny characters (Unicode scalar values). JavaScript compares UTF-16 code units. The two orders differ only between characters above U+FFFF and those in U+E000–U+FFFF.
- `Object.entries` and `Object.keys` put integer-like keys first, in ascending order. The model takes the entry sequence as given, already in that order.
- The `Swagger` and `SwaggerDefinition` declarations of `../types/swagger` are not part of this model. `SwaggerModel` declares only the fields the code reads. JSON `null` and an absent field are both `None`. So an `items.type` of `null` renders as `null[]` in the code (line 103), while the model gives `undefined[]` (`JsText(None)`).
- Errors are error kinds, not the thrown message text.
- `TypesGenerator.CleanRefDefinitions`: proved only for names without `#`. Because `replace` removes only the first match, a name behind `#/definitions/` keeps a repeat of `#/definitions/`, but it loses its first `#/components/schemas/`.
- `TypesGenerator.CleanRefSchemas`: proved only for names without `#`. A name behind `#/components/schemas/` loses its first `#/definitions/`, since that replace runs first, and it keeps a repeat of `#/components/schemas/`.
