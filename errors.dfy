/** Every way the resolution engine aborts. Each case names what the source's exception
  * message names; PHP run-time errors (a `ValueError` from `Enum::from`, a `TypeError`, a
  * warning that Laravel turns into an `ErrorException`) are cases too. */
module Errors {

  datatype Error =
    /** `No definition files found.` */
    | NoDefinitionFiles
    /** `PropertyTypeEnum::from` on an unknown `type`. */
    | UnknownPropertyType(model: string, property: string, value: string)
    /** `RelationTypeEnum::from` on an unknown `type`. */
    | UnknownRelationType(model: string, relation: string, value: string)
    /** `MixinTypeEnum::from` on an unknown mixin `name`. */
    | UnknownMixinType(value: string)
    /** `EnumColorEnum::from` on an unknown choice `color`. */
    | UnknownEnumColor(value: string)
    /** An ENUM property with neither `choices` nor `enum`. */
    | UnknownEnumType(model: string, property: string)
    /** `[model] Model missing does not exist.` */
    | ModelDoesNotExist(model: string, missing: string)
    /** A monomorphic relation whose `with` is a list: an illegal array offset. */
    | IllegalWithOffset(model: string, relation: string)
    /** `[model] Multiple event relations found: "relation" and "first".` */
    | MultipleEventRelations(model: string, relation: string, first: string)
    /** `[model] Relation already exists: relation` */
    | RelationAlreadyExists(model: string, relation: string)
    /** Reading `counterModelDefinition` of a relation that has a list of counterparts. */
    | NoSingleCounterpart(model: string, relation: string)
    /** The 2-capital prefix rule reading one character past the end of the name. */
    | UlidPrefixOffset(name: string)
    /** `Ulid prefixes are not unique.` */
    | UlidPrefixesNotUnique
    /** `Model only not found.` */
    | ModelNotFound(name: string)
    /** The review mixin's `status` property is missing or not an enum property. */
    | ReviewStatusNotEnum(model: string)
    /** The review mixin's `status` choices lack IN_REVIEW or REJECTED. */
    | ReviewChoicesMissing(model: string)
    /** A GEOLOCATION mixin that is not a `GeolocationMixinDefinition` (a `TypeError`). */
    | GeolocationMixinTypeError(model: string)
    /** `[model] Property "attribute" does not have an index, but is used as title attribute.` */
    | TitleAttributeWithoutIndex(model: string, attribute: string)
    /** `Enum doesn't have any choices.` */
    | EnumWithoutChoices(property: string)
    /** An external enum class that does not exist, or has no backing type. */
    | UnknownEnumClass(enumName: string)
    /** `Enum property should be instance of EnumPropertyDefinition`. */
    | EnumPropertyExpected(property: string)
    /** A `match` with no arm for the value (an `UnhandledMatchError`). */
    | UnhandledMatch(value: string)
    /** `Unknown property type` from the TypeScript type mapping. */
    | UnknownTypeScriptType(value: string)
    /** `Unknown relation type` from a doc-type or client-type mapping. */
    | UnsupportedRelationType(relation: string)
    /** `[enum]: Duplicate choices with the same index/value ...`, one group per duplicated key. */
    | DuplicateEnumChoices(enumName: string, groups: seq<(string, seq<string>)>)
    /** An indexed enum with a choice that has no index: its group key `''` is not an `int`. */
    | EnumIndexTypeError(enumName: string)
    /** Reading `choices[0]` of an enum without choices. */
    | EmptyEnumChoices(enumName: string)
}
