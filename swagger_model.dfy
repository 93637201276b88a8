/**
 * The part of a Swagger/OpenAPI document the generator reads. A JavaScript
 * object is an ordered sequence of `(key, value)` pairs in `Object.entries`
 * order; an optional field is an `Option`.
 */
module SwaggerModel {
  import opened Wrappers

  /** The `items` descriptor of an array property: its `type`, `format` and `$ref`. */
  datatype Items = Items(tag: Option<string>, format: Option<string>, ref: Option<string>)

  /** One property of an object schema: `type`, `format`, `$ref`, `items`, `description`. */
  datatype Property = Property(
    tag: Option<string>,
    format: Option<string>,
    ref: Option<string>,
    items: Option<Items>,
    description: Option<string>)

  /** One named schema definition: `description`, `properties`, `enum`. */
  datatype Definition = Definition(
    description: Option<string>,
    properties: Option<seq<(string, Property)>>,
    enum: Option<seq<string>>)

  /** The object of named schema definitions, in `Object.entries` order. */
  type Definitions = seq<(string, Definition)>

  /** The OpenAPI v3 `components` object. */
  datatype Components = Components(schemas: Option<Definitions>)

  /** A whole document: OpenAPI v2 keeps `definitions`, v3 keeps `components.schemas`. */
  datatype Swagger = Swagger(definitions: Option<Definitions>, components: Option<Components>)
}
