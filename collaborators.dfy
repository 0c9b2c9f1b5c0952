/** What the engine calls but does not define: Laravel's `Str` inflector, the
  * `laravel-generator.ulid_prefix` configuration value and enum classes found by reflection. */
module Collaborators {
  import opened Wrappers

  /** `Str::snake`, `Str::plural`, `Str::title` and `Str::studly`, left uninterpreted. */
  datatype Inflector = Inflector(
    snake: string -> string,
    plural: string -> string,
    title: string -> string,
    studly: string -> string)

  datatype BackingType = IntBacked | StringBacked

  /** An existing enum class: its backing type (`None` for a pure enum) and its
    * (case name, value) options as `EnumLib::determineOptionsByEnum` lists them. */
  datatype ExternalEnum = ExternalEnum(backing: Option<BackingType>, options: seq<(string, string)>)

  datatype Environment = Environment(
    inflector: Inflector,
    externalEnums: map<string, ExternalEnum>,
    /** `config('laravel-generator.ulid_prefix') === false`. */
    ulidPrefixCheckDisabled: bool)
}
