# laravel-generator: the definition resolution engine, in Dafny

This project models the core of the `laravel-generator` Artisan command (`generator:generate`).
The command reads one JSON definition file per model and builds a registry of model definitions
in four phases:

1. **Parse.** Each file becomes a model. Its header holds the table, the title attributes, the
   mixins, the request definition and the ULID prefix. Its state starts with the four inherited
   properties followed by the declared properties, no relations, and an observer flag.
   Models are registered under their names.
2. **Wire relations.** Each model's declared relations are built against the registry. Each
   relation is then stored under its name, its foreign-key properties are appended, and its
   inverse ("counter") relation, if any, is added to the counterpart model. A second event
   relation is refused.
3. **Mixins.** After the `only` selection and the ULID-prefix uniqueness check, REVIEW,
   GEOLOCATION and SOFT_DELETE add their relations and properties to each selected model.
4. **Order and check.** Each selected model's properties are put in `order` (inherited, then
   relation-derived, then the rest), and its title attributes are checked.

The model also covers the code generators this registry feeds that hold real logic:

- `GeneratorEnum`'s duplicate checks and case layout;
- `GeneratorMigration`'s create-migration body, and the column and index diff behind an update
  migration;
- `GeneratorTypeScriptType`'s interface and enum text.

## How the model is built

- **Value-level specification.** The registry as a value is `Resolution.Registry`, whose
  `order` holds the model names in insertion order. Every phase is a function on that value
  (`Resolution.Phase1`, `Phase2`, `AddAllMixins`, `OrderAll`, `Handle`), and its properties are
  proved as lemmas.
- **Imperative side.** The PHP objects that are updated in place are Dafny classes:
  - `Models.ModelDefinition` holds the model's properties, its relations and its observer flag;
  - `Command.GeneratorCommand` holds `allModel`.
- **Linking the two.** The command's loops are methods whose `ensures` equate the object
  graph's snapshot (`Snapshot()`) with the value-level function.
- **Generator loops.** The `$body .= ...` loops of the generators are methods proved against
  the functions that give the finished text.
- **Parameters.** The inflector (`Str::snake`, `plural`, `studly`) is a parameter, and so is the
  configuration (the ULID-prefix check switch, external PHP enums).
- **PHP conventions.**
  - PHP's warnings on missing array keys are errors.
  - `PHP_EOL` is `"\n"`.
  - PHP truthiness of strings is "neither empty nor `"0"`".

Where a doc string and the code disagree, the model follows the code:

- A repeated model name overwrites the earlier model in the registry (`Resolution.Register`),
  rather than being refused.
- The two-capital rule of `generateUlidPrefix` reads the letter after the *first* occurrence of
  the second capital, because that is what `strpos` returns.
- In the index branch of `GeneratorEnum`, a choice without an index gets the group key `''`. That
  key reaches an `int` closure parameter, so the branch fails (`EnumGen.CheckChoices`).

## Model

| member | source | states |
|---|---|---|
| Command.GeneratorCommand.constructor | src/Generator/Command/GeneratorCommand.php:62-71 | The command starts with an empty, valid registry whose snapshot is `Resolution.Empty`. |
| Command.GeneratorCommand.SetPropertiesOf | src/Generator/Definition/ModelDefinition.php:36-39 | `setProperties` on a registered model changes that model's properties and nothing else in the registry. |
| Command.GeneratorCommand.AddPropertyTo | src/Generator/Definition/ModelDefinition.php:41-44 | `addProperty` appends the property to that model only; the registry stays valid. |
| Command.GeneratorCommand.AddPropertyAfterIn | src/Generator/Definition/ModelDefinition.php:46-57 | `addPropertyAfter` splices the property in after the anchor (`Models.InsertAfter`) on that model only. |
| Command.GeneratorCommand.OverrideRelationOf | src/Generator/Definition/ModelDefinition.php:59-62 | `addRelationWithOverride` puts the relation under its name on that model only. |
| Command.GeneratorCommand.AddRelationTo | src/Generator/Definition/ModelDefinition.php:64-71 | `addRelation` passes iff the name is free, and then adds the relation; on failure the registry is unchanged and the error is `RelationAlreadyExists`. |
| Command.GeneratorCommand.AddRelationIfAbsentTo | src/Generator/Definition/ModelDefinition.php:73-80 | `addRelationIfNotExists` on that model only. |
| Command.GeneratorCommand.AddForeignKeys | src/Generator/Command/GeneratorCommand.php:154-158 | The relation's foreign-key properties are appended to the model, in order. |
| Command.GeneratorCommand.Register | src/Generator/Command/GeneratorCommand.php:137 | `$this->allModel[$name] = $model`: the map gets the object under its name, no other object enters, and the snapshot is `Resolution.Register` of the old one. |
| Command.GeneratorCommand.NewModel | src/Generator/Command/GeneratorCommand.php:101-136 | The object is constructed iff `Resolution.ParseModel` succeeds on the file, and then its header and state are that value; otherwise it fails with the same error. |
| Command.GeneratorCommand.ParseFile | src/Generator/Command/GeneratorCommand.php:72-138 | One file of phase 1: passes iff the file parses, and the new registry is the old one with the model registered. |
| Command.GeneratorCommand.ParseOne | src/Generator/Command/GeneratorCommand.php:72-138 | With the registry built from the files before `i`, it leaves the registry that `Resolution.Phase1` gives for one more file, or fails with phase 1's error. |
| Command.GeneratorCommand.ParseAll | src/Generator/Command/GeneratorCommand.php:72-138 | Phase 1 on the objects: passes iff `Resolution.Phase1` does, and then the snapshot is its registry. Every registered object is new. |
| Command.GeneratorCommand.Store | src/Generator/Command/GeneratorCommand.php:153-158 | The registry after storing the relation and appending its foreign keys is `Resolution.Stored`. |
| Command.GeneratorCommand.Wire | src/Generator/Command/GeneratorCommand.php:146-166 | One relation: passes iff `Resolution.WireRelation` succeeds, and then the snapshot is its registry; otherwise it fails with the same error. |
| Command.GeneratorCommand.StoreWithCounter | src/Generator/Command/GeneratorCommand.php:153-166 | A relation that passed the event check: the same agreement with `Resolution.WireRelation`. |
| Command.GeneratorCommand.AddCounterRelation | src/Generator/Command/GeneratorCommand.php:160-166 | The inverse relation step agrees with `Resolution.AddCounter`, error included. |
| Command.GeneratorCommand.WireModel | src/Generator/Command/GeneratorCommand.php:141-167 | One model of phase 2 agrees with `Resolution.ResolveModel`: it builds all relations first, then wires them. |
| Command.GeneratorCommand.WireNextRelation | src/Generator/Command/GeneratorCommand.php:146-167 | Relation `i` of the loop: the registry after it is `Resolution.WireRelations` over one more relation, or that fold's error. |
| Command.GeneratorCommand.WireRelationsOf | src/Generator/Command/GeneratorCommand.php:146-167 | The relation loop agrees with `Resolution.WireRelations`; the first error stops it. |
| Command.GeneratorCommand.WireNext | src/Generator/Command/GeneratorCommand.php:140-168 | Model `i` of the loop: the registry after it is `Resolution.Phase2` over one more name, or that fold's error. |
| Command.GeneratorCommand.WireAll | src/Generator/Command/GeneratorCommand.php:140-168 | Phase 2 over the registry's order agrees with `Resolution.Phase2`, error included. |
| Command.GeneratorCommand.ValidateUlidPrefixUniqueIfNeeded | src/Generator/Command/GeneratorCommand.php:849-862 | The outcome is `UlidPrefix.ValidateUlidPrefixUnique` over the registry's prefixes. |
| Command.GeneratorCommand.AddReviewRelations | src/Generator/Command/GeneratorCommand.php:639-675 | The step agrees with `Mixins.ReviewRelations` on model `n`, where `User` is looked up in the registry. |
| Command.GeneratorCommand.AddReviewerRelation | src/Generator/Command/GeneratorCommand.php:650-673 | With `User` found, the step agrees with `Mixins.ReviewRelations`. |
| Command.GeneratorCommand.AddReviewProperties | src/Generator/Command/GeneratorCommand.php:736-777 | The step agrees with `Mixins.ReviewProperties` on model `n`. |
| Command.GeneratorCommand.AddGeolocationProperties | src/Generator/Command/GeneratorCommand.php:677-734 | The step agrees with `Mixins.GeolocationProperties` on model `n`. |
| Command.GeneratorCommand.AddSoftDeleteProperties | src/Generator/Command/GeneratorCommand.php:779-808 | The step agrees with `Mixins.SoftDeleteProperties` on model `n`. |
| Command.GeneratorCommand.AddReview | src/Generator/Command/GeneratorCommand.php:623-626 | The REVIEW arm agrees with `Mixins.ReviewMixin`: the relations, then the properties. |
| Command.GeneratorCommand.AddMixin | src/Generator/Command/GeneratorCommand.php:622-635 | One mixin agrees with `Mixins.ApplyMixin`, chosen by the mixin's type. |
| Command.GeneratorCommand.AddMixins | src/Generator/Command/GeneratorCommand.php:618-637 | `addMixins` agrees with `Mixins.ApplyMixins` over the model's mixins; only model `n` changes, and the first error stops. |
| Command.GeneratorCommand.MixinAll | src/Generator/Command/GeneratorCommand.php:184-186 | Phase 3 agrees with `Resolution.AddAllMixins`, error included. |
| Command.GeneratorCommand.ValidateTitles | src/Generator/Command/GeneratorCommand.php:579-594 | The outcome is `Mixins.ValidateTitleAttributes` on the model's titles and properties. |
| Command.GeneratorCommand.OrderModel | src/Generator/Command/GeneratorCommand.php:190-191 | The model's properties become `Order` of the old ones, and the title check runs on the ordered list. |
| Command.GeneratorCommand.OrderAndCheck | src/Generator/Command/GeneratorCommand.php:188-192 | Phase 4 agrees with `Resolution.OrderAll`, error included. |
| Command.GeneratorCommand.ResolveAll | src/Generator/Command/GeneratorCommand.php:72-168 | Phases 1 and 2 on an empty registry agree with `Resolution.Resolve`. |
| Command.GeneratorCommand.SelectModels | src/Generator/Command/GeneratorCommand.php:170-181 | The selection is `Resolution.Select` of the registry and the `only` argument. |
| Command.GeneratorCommand.MixAndOrder | src/Generator/Command/GeneratorCommand.php:184-192 | Phases 3 and 4 agree with `Resolution.MixAndOrder`. |
| Command.GeneratorCommand.HandleSelected | src/Generator/Command/GeneratorCommand.php:170-192 | Selection, prefix check, mixins and ordering agree with `Resolution.HandleResolved`. |
| Command.GeneratorCommand.Handle | src/Generator/Command/GeneratorCommand.php:62-191 | The resolution phases of `handle` on an empty registry pass iff `Resolution.Handle` succeeds, and then the snapshot is its registry; its error otherwise. |
| Command.SnapOfRegister | src/Generator/Command/GeneratorCommand.php:137 | Storing an object under its name in the map changes the snapshot exactly as `Resolution.Register` does. |
| Command.StoredSteps | src/Generator/Command/GeneratorCommand.php:153-158 | `Resolution.Stored` is the relation put under its name, followed by its foreign keys appended. |
| Command.ReviewRelationsSteps | src/Generator/Command/GeneratorCommand.php:650-673 | The REVIEW relations are `addRelation` of the reviewer relation, then its foreign keys; an error if the name is taken. |
| Command.WithStateParts | src/Generator/Command/GeneratorCommand.php:184-192 | Changing one model's state keeps the headers, the order and the `User` reference. |
| Models.ModelDefinition.constructor | src/Generator/Definition/ModelDefinition.php:20-34 | A new model has the given header fields, no properties and no relations, and the given observer flag. |
| Models.ModelDefinition.SetProperties | src/Generator/Definition/ModelDefinition.php:36-39 | Only the property list changes, to the one given. |
| Models.ModelDefinition.SetHasObserver | src/Generator/Command/GeneratorCommand.php:136 | Only the observer flag changes. |
| Models.ModelDefinition.AddProperty | src/Generator/Definition/ModelDefinition.php:41-44 | The property list gains the property at its end; nothing else changes. |
| Models.ModelDefinition.AddPropertyAfter | src/Generator/Definition/ModelDefinition.php:46-57 | The property list becomes `InsertAfter` of the old list; nothing else changes. |
| Models.ModelDefinition.AddRelationWithOverride | src/Generator/Definition/ModelDefinition.php:59-62 | The relations become `Put` of the relation under its name. |
| Models.ModelDefinition.AddRelation | src/Generator/Definition/ModelDefinition.php:64-71 | Fails with `RelationAlreadyExists` and no change iff the name is taken; otherwise the relation is appended. |
| Models.ModelDefinition.AddRelationIfNotExists | src/Generator/Definition/ModelDefinition.php:73-80 | The relations become `PutIfAbsent` of the old ones. |
| Models.ModelDefinition.ClassNamesAgree | src/Generator/Definition/ModelDefinition.php:82-95 | The full class name is the namespace, `\Model\` and the class name; the base class adds `\Generated\` and a `Base` suffix; the class name is the name plus `Model`. |
| Models.ModelDefinition.SiblingClassName | src/Generator/Definition/ModelDefinition.php:97-105 | Exploding the namespace at backslashes, adding two segments and joining again gives the namespace, the kind segment and the class name, backslash-separated. |
| Models.ModelDefinition.KindFullClassName | src/Generator/Definition/ModelDefinition.php:97-135 | For each of `Nova`, `Observer`, `Resource` and `Query` the result is `<namespace>\<kind>\<name><kind>`: the namespace with the kind segment, then the model name with the kind appended. |
| Models.ModelDefinition.GetEventFullClassName | src/Generator/Definition/ModelDefinition.php:137-150 | The result is `<namespace>\Event\` plus the event class name `<name>Event`. |
| Models.InsertAfter | src/Generator/Definition/ModelDefinition.php:46-57 | The list grows by one; without an anchor the property is appended. |
| Models.InsertAfterAt | src/Generator/Definition/ModelDefinition.php:48-55 | With a first anchor at `i`, the result is the list up to `i`, then `p`, then the rest. |
| Models.InsertAfterKeepsOrder | src/Generator/Definition/ModelDefinition.php:53-55 | `p` sits right after the anchor, and removing that slot gives back the old list. |
| Models.PutIfAbsent | src/Generator/Definition/ModelDefinition.php:73-80 | A taken name leaves the relations as they are; a free one appends the relation; either way the name is afterwards present. |
| Models.PutIfAbsentIdempotent | src/Generator/Definition/ModelDefinition.php:73-80 | Applying it twice is the same as applying it once. |
| Models.LookupPutIfAbsent | src/Generator/Definition/ModelDefinition.php:73-80 | On keyed relations, the entry for a name changes only when it was missing and the name is the relation's. |
| Models.AddedRelation | src/Generator/Definition/ModelDefinition.php:64-71 | An error iff the name is taken, naming the model and the relation; otherwise the relation is appended. |
| Models.OverrideLookup | src/Generator/Definition/ModelDefinition.php:59-62 | Afterwards the name maps to the new relation and every other name is unchanged; a replaced entry keeps its slot. |
| Definitions.DefaultRequest | src/Generator/Definition/RequestDefinition.php:14-22 | A request definition built from a name and a required flag has all three statuses at INCLUDE. |
| Definitions.DefaultNova | src/Generator/Definition/NovaDefinition.php:12-22 | The Nova definition of a bare name has no type and no help text, and all four visibility flags are set. |
| Definitions.Ref | src/Generator/Definition/ModelDefinition.php:20-34 | The reference that properties and relations keep to a model carries its name, namespace and request definition. |
| Enums.PropertyTypeFrom | src/Generator/Definition/Enum/PropertyTypeEnum.php:5-26 | `from` returns a case only for its own backing string, and returns nothing when no case has that string. |
| Enums.PropertyTypeRoundTrip | src/Generator/Definition/Enum/PropertyTypeEnum.php:5-26 | Every property type is recovered from its backing string. |
| Enums.RelationTypeFrom | src/Generator/Definition/Enum/RelationTypeEnum.php:5-10 | `from` for the relation types: the same two-way agreement with the backing strings. |
| Enums.MixinTypeFrom | src/Generator/Definition/Enum/MixinTypeEnum.php:5-10 | `from` for the mixin types: the same. |
| Enums.EnumColorFrom | src/Generator/Definition/Enum/EnumColorEnum.php:5-11 | `from` for the enum colours: the same. |
| Parsing.ParseRequestStatus | src/Generator/Command/GeneratorCommand.php:569-577 | A status other than the fallback comes only from its own spelling; a value that spells no status gives the fallback. |
| Parsing.ParseRequestStatusRoundTrip | src/Generator/Command/GeneratorCommand.php:571-576 | Each status is read back from its own spelling, whatever the fallback. |
| Parsing.ParseRequest | src/Generator/Command/GeneratorCommand.php:558-567 | The name is kept. `isRequired` holds iff `request.required` is true, or is absent while the definition's `required` is true. Each status that differs from the fallback was spelt in the file. |
| Parsing.ParseRequestOfNothing | src/Generator/Command/GeneratorCommand.php:558-567 | Without a `request` object every status is the fallback; with fallback INCLUDE that is `Definitions.DefaultRequest`. |
| Parsing.DefaultProperties | src/Generator/Command/GeneratorCommand.php:249-347 | Exactly four properties: `id` (ID), `ulid` (ULID), `created_at` and `updated_at` (TIMESTAMP). All are inherited, required, not computed, indexed under their own name, and excluded from create and update. |
| Parsing.DeclaredNova | src/Generator/Command/GeneratorCommand.php:375-382 | No help text. Each flag the file sets is kept. Index and detail default to shown. Both edit flags default to "not computed". |
| Parsing.SpreadNova | src/Generator/Command/GeneratorCommand.php:532 | Each key the file gives is kept; each flag the file does not set stays true. |
| Parsing.NovaOfNothing | src/Generator/Command/GeneratorCommand.php:375-382 | Without a `nova` object: a non-computed property gets `DefaultNova`, and a computed one is hidden from both edit forms. |
| Parsing.ParseChoice | src/Generator/Command/GeneratorCommand.php:482-487 | Fails iff the colour is given and is no `EnumColorEnum` value. Otherwise it keeps the name, the value and the index, and keeps the colour's spelling. |
| Parsing.DeclaredProperty | src/Generator/Command/GeneratorCommand.php:366-384 | A declared property gets its name, owner, type, Nova definition, index and kind, and the shared fields as parsed. |
| Parsing.ParseEnumProperty | src/Generator/Command/GeneratorCommand.php:459-516 | Fails iff there are neither `choices` nor `enum`, or a choice fails. Inline choices win over an external enum. The index defaults to the property name. |
| Parsing.GeneratePropertyShape | src/Generator/Command/GeneratorCommand.php:352-386 | An unknown type string is an error, and an ENUM goes through `parseEnumProperty`. Every other known type succeeds, with the JSON, media or plain shape, index and Nova definition of its branch. |
| Parsing.InitialProperties | src/Generator/Command/GeneratorCommand.php:127-132 | Succeeds iff every declared property parses, and then holds the four defaults followed by one entry per declared property. |
| Parsing.InitialPropertiesDeclared | src/Generator/Command/GeneratorCommand.php:130 | Entry `4 + i` is declared property `i` as parsed. |
| Parsing.InitialInheritedAreDefaults | src/Generator/Command/GeneratorCommand.php:127-132 | No declared property is inherited, so only the defaults are. |
| Parsing.ParseMixin | src/Generator/Command/GeneratorCommand.php:599-612 | Fails iff the name is no mixin type. The name and the type are kept, and only GEOLOCATION builds the subclass, carrying the `address` flag (default false). |
| Parsing.ParseMixins | src/Generator/Command/GeneratorCommand.php:596-616 | Succeeds iff every entry names a mixin type, and then gives one mixin per entry, in order. |
| Parsing.ParsedMixinsTyped | src/Generator/Command/GeneratorCommand.php:596-616 | Every parsed GEOLOCATION mixin is a `GeolocationMixinDefinition`. |
| Parsing.GenerateRelationPropertyName | src/Generator/Command/GeneratorCommand.php:810-817 | HAS_MANY gives the snake-cased model name plus `_id`; the other types give the relation name plus `_id`. |
| Parsing.RelationNova | src/Generator/Command/GeneratorCommand.php:413-420 | A relation's Nova definition has no type and keeps the help text. It is shown on index, detail and create unless the file says false, and on update only when the file says true. |
| Parsing.LookupModel | src/Generator/Command/GeneratorCommand.php:398-399 | Succeeds iff the name is registered, giving that model; the error names the owner and the missing model. |
| Parsing.ResolveCounterpart | src/Generator/Command/GeneratorCommand.php:395-449 | BELONGS_TO and HAS_MANY need one registered model; a list is an error. POLYMORPHIC resolves each listed name in order, and its error names a missing one. |
| Parsing.GenerateRelation | src/Generator/Command/GeneratorCommand.php:391-454 | An unknown type is an error, and otherwise it succeeds iff the counterpart resolves. Every attribute is the file's or its default. |
| Parsing.PropertyNameIsForeignKey | src/Generator/Command/GeneratorCommand.php:403 | Without `foreignKey`, a BELONGS_TO or POLYMORPHIC relation's property name is its name plus `_id`. |
| Parsing.BuildRelations | src/Generator/Command/GeneratorCommand.php:144 | Succeeds iff every declared relation builds, and then gives one per relation in file order, owned by the model. Otherwise it gives some failing relation's error. |
| Parsing.MissingCounterpartFails | src/Generator/Command/GeneratorCommand.php:398-447 | A relation naming an unregistered model makes the whole list fail. |
| Parsing.DetermineHasObserver | src/Generator/Command/GeneratorCommand.php:819-824 | True iff the `observer` flag is set, some relation is an event relation, or some mixin is GEOLOCATION. |
| Parsing.ObserverBeforeRelations | src/Generator/Command/GeneratorCommand.php:136 | In phase 1 there are no relations yet, so only the flag and the GEOLOCATION mixin count. |
| Parsing.ParseHeader | src/Generator/Command/GeneratorCommand.php:101-125 | Succeeds iff the mixins parse and a prefix is given or derivable; a mixin error comes first. It keeps the file's name, namespace, titles, request and prefix, and the table name defaults to the snake plural of the model name. |
| Properties.IsMediaCollection | src/Generator/Definition/PropertyDefinition.php:249-256 | Every media collection type is a media type. |
| Properties.RulesRequired | src/Generator/Definition/PropertyDefinition.php:183-190 | The result is `required` on create for a request-required property, and `nullable` in every other case. |
| Properties.RulesByPropertyType | src/Generator/Definition/PropertyDefinition.php:195-219 | Fails iff the type is ENUM or MONEY_AMOUNT. Identifiers give `ulid`, STRING gives `string` and `max:255`, media and JSON give none. At most two rules. |
| Properties.GenerateRules | src/Generator/Definition/PropertyDefinition.php:224-235 | One rule per user rule, in order. The three aliases are replaced by their classes and every other rule is kept. |
| Properties.PlainRules | src/Generator/Definition/PropertyDefinition.php:171-178 | `getRules` of a non-enum property: the required rule, then the type's rules, then the user rules. It fails iff the type has no arm. |
| Properties.GenerateEnumName | src/Generator/Definition/EnumPropertyDefinition.php:55-63 | A truthy external enum gives its `class_basename`; otherwise the owner's name, the studly property name and `Enum`. |
| Properties.GenerateEnumNamespace | src/Generator/Definition/EnumPropertyDefinition.php:65-83 | Without a truthy external enum the namespace is the owner's, followed by `\Enum\Generated`. |
| Properties.SplitReplaced | src/Generator/Definition/EnumPropertyDefinition.php:65-83 | Exploding at `/` after mapping backslashes to slashes is exploding at the backslash. |
| Properties.ExternalPieces | src/Generator/Definition/EnumPropertyDefinition.php:55-63 | A qualified class name has at least two pieces, and its base name is the last. |
| Properties.ExternalFullEnumName | src/Generator/Definition/EnumPropertyDefinition.php:90-93 | The full name rebuilt from the namespace and base name of `A\B\Name` is `A\B\Name`. |
| Properties.IsIndexed | src/Generator/Definition/EnumPropertyDefinition.php:109-121 | Inline: whether the first choice has an index. External: it needs a backed enum, and is indexed iff that enum is `int`-backed. |
| Properties.GetChoices | src/Generator/Definition/EnumPropertyDefinition.php:136-155 | Inline choices are returned as they are. An external enum, when known, gives one choice per option with its value and no index or colour. |
| Properties.GenerateEnumDefinition | src/Generator/Definition/EnumPropertyDefinition.php:123-134 | Succeeds iff the choices are inline, with those choices and the enum's name and namespace. |
| Properties.EnumRules | src/Generator/Definition/EnumPropertyDefinition.php:160-170 | The required rule, one `in:` rule listing the names and then the keys, then the user rules; fails iff the choices are unknown. |
| Properties.ToColumnType | src/Generator/Definition/PropertyDefinition.php:131-152 | `id` only for the ID property named `id`. ENUM-typed, MONEY_AMOUNT and media properties that are not enum properties fail. An enum property is `tinyInteger` or `string` by whether it is indexed. |
| Properties.ToPhpDocType | src/Generator/Definition/PropertyDefinition.php:57-81 | An enum property gives its full enum class name. Otherwise it fails iff the type is ENUM or MONEY_AMOUNT; ID and INTEGER give `int`. |
| Properties.ToCastType | src/Generator/Definition/PropertyDefinition.php:83-101 | An enum property gives its full enum class name. Otherwise it fails iff the type is ENUM, MONEY_AMOUNT or media; TIMESTAMP gives `datetime`. |
| Properties.ToNovaType | src/Generator/Definition/PropertyDefinition.php:103-129 | A truthy explicit type gives a `Laravel\Nova\Fields\` class. Otherwise it fails iff the type is MONEY_AMOUNT, and ENUM gives `App\Nova\Fields\NovaEnum`. |
| Properties.GenerateGetter | src/Generator/Definition/PropertyDefinition.php:154-166 | The getter reads the property on the variable. An ENUM reads the case name, through `?->` when the property is optional. |
| PropertyCollection.Partitions | src/Generator/Definition/PropertyCollection.php:21-96 | Each complementary pair of filters (inherited, relation, media, required, appended in resource) splits the collection: together the two parts are a permutation of it. |
| PropertyCollection.GetAllInGetRequest | src/Generator/Definition/PropertyCollection.php:101-112 | A property is kept iff both the model's and the property's own get status are INCLUDE or INCLUDE_CONDITIONALLY, in collection order. |
| PropertyCollection.GetAllInGetRequestWithoutConditional | src/Generator/Definition/PropertyCollection.php:117-122 | A property is kept iff both get statuses are INCLUDE. |
| PropertyCollection.GetAllInGetRequestConditional | src/Generator/Definition/PropertyCollection.php:127-131 | A property is kept iff its own get status is INCLUDE_CONDITIONALLY. |
| PropertyCollection.GetAllInCreateRequest | src/Generator/Definition/PropertyCollection.php:136-151 | A property is kept iff the model's and its own create status are included and it is neither computed nor appended in the resource. |
| PropertyCollection.GetAllInUpdateRequest | src/Generator/Definition/PropertyCollection.php:156-171 | The same, for the update status. |
| PropertyCollection.GetSearchable | src/Generator/Definition/PropertyCollection.php:176-206 | A property is kept iff it is not relation-derived, not computed, has an index, and is an ID, ULID, STRING or ENUM. |
| PropertyCollection.GetEnumsToGenerate | src/Generator/Definition/PropertyCollection.php:237-246 | A property is kept iff it is an enum property with inline choices. |
| PropertyCollection.Get | src/Generator/Definition/PropertyCollection.php:302-305 | The result is the first property with that name, or nothing iff no property has it. |
| PropertyCollection.Exists | src/Generator/Definition/PropertyCollection.php:307-310 | True iff some property has that name. |
| PropertyCollection.Rank | src/Generator/Definition/PropertyCollection.php:290-298 | The sort key takes one of three values. |
| PropertyCollection.Order | src/Generator/Definition/PropertyCollection.php:287-300 | `order` returns a permutation of the properties, sorted by rank. |
| PropertyCollection.OrderIsStable | src/Generator/Definition/PropertyCollection.php:287-300 | The result is the inherited properties, then the relation-derived ones, then the rest, each group in collection order. |
| PropertyCollection.IndexPairs | src/Generator/Definition/PropertyCollection.php:270-285 | `determineIndexPairs` lists each index tag at most once; the groups' contents and order are stated by `IndexPairsGroups` and `IndexPairsTags`. |
| PropertyCollection.AddToIndexGroupUnique | src/Generator/Definition/PropertyCollection.php:273-282 | One reduce step keeps the tags distinct. |
| PropertyCollection.GroupOf | src/Generator/Definition/PropertyCollection.php:270-285 | A name is in the group of tag `k` iff some property with tag `k` has that name. |
| PropertyCollection.AddToIndexGroupLookup | src/Generator/Definition/PropertyCollection.php:273-282 | One reduce step appends the property's name to the group of its own tag when that tag is truthy, and changes no other group. |
| PropertyCollection.IndexPairsGroups | src/Generator/Definition/PropertyCollection.php:270-285 | Under each truthy tag carried by some property the group lists exactly those properties' names in order; any other tag has no group. |
| PropertyCollection.TagsInOrder | src/Generator/Definition/PropertyCollection.php:270-285 | A tag is listed iff it is truthy and some property carries it, and no tag is listed twice. |
| PropertyCollection.IndexPairsTags | src/Generator/Definition/PropertyCollection.php:270-285 | The groups come in the order their tags first appear among the properties, which is the order of the create migration's index lines. |
| RelationCollection.RequiredPartition | src/Generator/Definition/RelationCollection.php:20-31 | `getRequired` and `getNonRequired` split the relations into the required and the optional ones: a permutation, with matching sizes. |
| RelationCollection.GetAllInGetRequest | src/Generator/Definition/RelationCollection.php:36-44 | A relation is kept iff its get status is INCLUDE or INCLUDE_CONDITIONALLY. |
| RelationCollection.GetEagerLoadable | src/Generator/Definition/RelationCollection.php:46-49 | A relation is kept iff it is eager-loaded. |
| RelationCollection.GetWithEventOrNull | src/Generator/Definition/RelationCollection.php:51-54 | The result is the first event relation, or nothing iff there is none. |
| Relations.ForeignKeyProperty | src/Generator/Definition/RelationDefinition.php:59-141 | A synthesized property is named after the relation plus the suffix and has the given type and owner. It is required as the relation is, excluded from the get request, creatable and updatable as the relation is, indexed under the relation's index, and derived from the relation. |
| Relations.GenerateAllForeignKeyProperty | src/Generator/Definition/RelationDefinition.php:59-141 | BELONGS_TO gives `<name>_id` (ID). POLYMORPHIC gives `<name>_type` (STRING) then `<name>_id` (ID). HAS_MANY gives none. |
| Relations.GenerateCounterRelationOrNull | src/Generator/Definition/RelationDefinition.php:143-190 | With the counter flag set, a BELONGS_TO relation yields the inverse HAS_MANY relation on its counterpart; every other relation yields none. A BELONGS_TO relation with several counterparts is an error. |
| Relations.CounterRelationIsFinal | src/Generator/Definition/RelationDefinition.php:143-190 | An inverse relation has no inverse and no foreign keys of its own. |
| Relations.TagMapsInjective | src/Generator/Definition/RelationDefinition.php:41-57 | `toNovaType` and `toRelationType` each name a different class for each relation type. |
| Relations.MonoPhpDocType | src/Generator/Definition/RelationMonomorphicDefinition.php:46-62 | BELONGS_TO gives the counterpart's model class, with `null` as an alternative when optional. HAS_MANY gives a `Collection` of it, and POLYMORPHIC has no arm. |
| Relations.Alternatives | src/Generator/Definition/RelationPolymorphicDefinition.php:46-60 | One class name per counterpart in order, then `null` iff the relation is optional. |
| Relations.PolyPhpDocType | src/Generator/Definition/RelationPolymorphicDefinition.php:46-52 | `toPhpDocType` joins the class-name alternatives with the bar character. |
| Relations.PolyParameterType | src/Generator/Definition/RelationPolymorphicDefinition.php:54-60 | `toParameterType` joins the full-class-name alternatives with the bar character. |
| Relations.PolyPhpDocTypeParts | src/Generator/Definition/RelationPolymorphicDefinition.php:46-52 | Splitting the doc type at the bar gives back exactly the alternatives. |
| Mixins.MixinProperty | src/Generator/Command/GeneratorCommand.php:677-808 | A property a mixin adds has the given type, label, index, request statuses and Nova flags. It is never required, computed, inherited or relation-derived, and has no rules. |
| Mixins.ReviewRelation | src/Generator/Command/GeneratorCommand.php:641-668 | `user_reviewer` is a BELONGS_TO relation to `User` with property `user_reviewer_id` and index `review`. It has no counter relation, no eager loading and no event, is excluded from every request, and is shown everywhere in Nova. |
| Mixins.ReviewMessageProperty | src/Generator/Command/GeneratorCommand.php:755-776 | `review_message` is a STRING without an index, in the get request conditionally only, shown on detail and update. |
| Mixins.GeolocationProperty | src/Generator/Command/GeneratorCommand.php:679-702 | `geolocation` is included in every request and hidden on the Nova index. |
| Mixins.AddressProperty | src/Generator/Command/GeneratorCommand.php:705-731 | `address` is included only in the get request. |
| Mixins.DeletedAtProperty | src/Generator/Command/GeneratorCommand.php:781-806 | `deleted_at` is a TIMESTAMP indexed under its name, in no request, shown only on the Nova detail page. |
| Mixins.ReviewRelations | src/Generator/Command/GeneratorCommand.php:639-675 | Without `User` it fails naming `User`; when `user_reviewer` is taken it fails with `RelationAlreadyExists`. Otherwise the relation and its foreign key are appended. |
| Mixins.ReviewRelationsAppend | src/Generator/Command/GeneratorCommand.php:650-673 | Exactly one relation and one property, `user_reviewer_id` indexed under `review`, follow what was there. |
| Mixins.ReviewProperties | src/Generator/Command/GeneratorCommand.php:736-777 | Fails unless the first `status` property is an enum whose choices include `IN_REVIEW` and `REJECTED`; then `review_message` is appended. |
| Mixins.ReviewAcceptsInlineStatus | src/Generator/Command/GeneratorCommand.php:738-749 | An inline `status` enum with both choices always passes. |
| Mixins.GeolocationProperties | src/Generator/Command/GeneratorCommand.php:677-734 | A plain mixin of this type is a type error. Otherwise `geolocation` is appended, then `address` iff the mixin asks for it; the relations and the observer flag are kept. |
| Mixins.SoftDeleteProperties | src/Generator/Command/GeneratorCommand.php:779-808 | Exactly `deleted_at` is added, and the relations and the observer flag are kept. |
| Mixins.SoftDeleteAfterDefaults | src/Generator/Command/GeneratorCommand.php:779-808 | After the four defaults, `deleted_at` lands fifth, between `updated_at` and the declared properties. |
| Mixins.ApplyMixinExtends | src/Generator/Command/GeneratorCommand.php:621-635 | A mixin only adds: old properties and relations keep their slots, and the observer flag is kept. |
| Mixins.ApplyMixinsSnoc | src/Generator/Command/GeneratorCommand.php:621-636 | One more mixin is applied to what the earlier ones left. |
| Mixins.ApplyMixinsStops | src/Generator/Command/GeneratorCommand.php:621-636 | After the first failing mixin, later mixins change nothing. |
| Mixins.ApplyMixinsStopsAt | src/Generator/Command/GeneratorCommand.php:621-636 | The failing prefix decides the whole list. |
| Mixins.ApplyMixinsExtend | src/Generator/Command/GeneratorCommand.php:618-637 | `addMixins` only adds, and keeps the observer flag. |
| Mixins.NoMixinsNoChange | src/Generator/Command/GeneratorCommand.php:618-637 | No mixins leaves the model as it is. |
| Mixins.TitleLookup | src/Generator/Command/GeneratorCommand.php:582 | `getNonComputed()->get(a)` is the first non-computed property named `a`. |
| Mixins.LacksIndexMeans | src/Generator/Command/GeneratorCommand.php:582-589 | A title complains iff the first non-computed property of that name has no index. |
| Mixins.ValidateTitleAttributesPass | src/Generator/Command/GeneratorCommand.php:579-594 | The check passes iff no title attribute complains. |
| Mixins.ValidateTitleAttributesFirst | src/Generator/Command/GeneratorCommand.php:579-594 | A failing check reports the first complaining title. |
| Mixins.IndexedTitlesPass | src/Generator/Command/GeneratorCommand.php:579-594 | Titles that are all indexed non-computed properties pass. |
| Resolution.UpdateValid | src/Generator/Command/GeneratorCommand.php:134 | Replacing one model's state keeps the registry valid when the new relations are keyed by name. |
| Resolution.SameModelsValid | src/Generator/Command/GeneratorCommand.php:140-192 | A step that keeps the same models and keeps relations keyed keeps the registry valid. |
| Resolution.RefsNamed | src/Generator/Command/GeneratorCommand.php:398 | A model reference taken from the registry names a registered model and is that model's reference. |
| Resolution.RefsWirable | src/Generator/Command/GeneratorCommand.php:144 | Relations built against the registry's references can be wired into it. |
| Resolution.InitialState | src/Generator/Command/GeneratorCommand.php:127-136 | Succeeds iff the properties parse. The model starts with no relations and the four defaults first, and has an observer iff the file asks for one or it has a GEOLOCATION mixin. |
| Resolution.ParseModel | src/Generator/Command/GeneratorCommand.php:101-137 | A parsed model carries its file's name and no relations. |
| Resolution.ParseModelParts | src/Generator/Command/GeneratorCommand.php:101-136 | The model parses iff its header and then its initial state do, and is exactly that pair. |
| Resolution.Register | src/Generator/Command/GeneratorCommand.php:137 | The header and state maps gain or replace the entry under the name, and the old order is a prefix of the new one. |
| Resolution.RegisterValid | src/Generator/Command/GeneratorCommand.php:137 | Registering a model whose relations are keyed keeps the registry valid. |
| Resolution.NamesOf | src/Generator/Command/GeneratorCommand.php:72-74 | A name is in `Names` iff some file has it. |
| Resolution.Phase1Step | src/Generator/Command/GeneratorCommand.php:72-138 | Phase 1 over one more file registers that file's model, or gives its error. |
| Resolution.Phase1Next | src/Generator/Command/GeneratorCommand.php:72-138 | From the registry `r` built by earlier files, a failing file ends phase 1 with its error, and a good one is registered on `r`. |
| Resolution.Phase1Aborts | src/Generator/Command/GeneratorCommand.php:72-138 | After the first file that fails, later files change nothing. |
| Resolution.Phase1Succeeds | src/Generator/Command/GeneratorCommand.php:72-138 | Phase 1 succeeds iff every file parses. |
| Resolution.Phase1Valid | src/Generator/Command/GeneratorCommand.php:72-138 | After phase 1 the registry is valid and no model has relations yet. |
| Resolution.Phase1Keys | src/Generator/Command/GeneratorCommand.php:72-138 | After phase 1 the registered names are exactly the files' names. |
| Resolution.Phase1LastWins | src/Generator/Command/GeneratorCommand.php:137 | A name given by several files keeps the header and state of the last of them. |
| Resolution.AddCounter | src/Generator/Command/GeneratorCommand.php:160-166 | Adding an inverse relation keeps the same models. |
| Resolution.WireRelation | src/Generator/Command/GeneratorCommand.php:146-166 | Wiring one relation keeps the same models and succeeds only when the relation is not a second event relation. |
| Resolution.WireRelationKeyed | src/Generator/Command/GeneratorCommand.php:153-165 | Wiring one relation keeps every model's relation names unique. |
| Resolution.StoredKeyed | src/Generator/Command/GeneratorCommand.php:153 | Storing a relation under its name keeps the names unique. |
| Resolution.AddIfAbsentKeyed | src/Generator/Command/GeneratorCommand.php:165 | Adding the inverse only under a free name keeps the names unique. |
| Resolution.WireRelationEvent | src/Generator/Command/GeneratorCommand.php:147-151 | An event relation that is not the first event relation fails, naming it and the first one. |
| Resolution.WireRelationStores | src/Generator/Command/GeneratorCommand.php:153-158 | Afterwards the relation sits under its name, even over an earlier inverse. Its foreign keys are appended to the properties, and the observer flag is kept. |
| Resolution.WireRelationCounter | src/Generator/Command/GeneratorCommand.php:160-166 | The inverse, if any, ends up under its name on the counterpart, and leaves the counterpart untouched when that name was taken. |
| Resolution.WireRelationOthers | src/Generator/Command/GeneratorCommand.php:146-166 | No model other than the owner and the counterpart changes. |
| Resolution.WireRelations | src/Generator/Command/GeneratorCommand.php:146-167 | The relation loop keeps the same models, and succeeds only when no relation is a second event relation. |
| Resolution.WireRelationsKeyed | src/Generator/Command/GeneratorCommand.php:146-167 | The relation loop keeps relation names unique. |
| Resolution.WireRelationsSnoc | src/Generator/Command/GeneratorCommand.php:146-167 | One more relation is wired on the earlier result. |
| Resolution.WireRelationsNext | src/Generator/Command/GeneratorCommand.php:146-167 | From the registry the earlier relations built, the next relation is wired on it. |
| Resolution.WireRelationsStops | src/Generator/Command/GeneratorCommand.php:146-167 | After the first relation that fails, later relations change nothing. |
| Resolution.WireRelationsStopsAt | src/Generator/Command/GeneratorCommand.php:146-167 | The failing prefix decides the whole loop. |
| Resolution.WireRelationsOneEvent | src/Generator/Command/GeneratorCommand.php:147-151 | After a successful loop every event relation is the first event relation. |
| Resolution.ResolveModel | src/Generator/Command/GeneratorCommand.php:141-167 | Resolving one model keeps the same models. |
| Resolution.Phase2 | src/Generator/Command/GeneratorCommand.php:140-168 | Phase 2 keeps the same models. |
| Resolution.Phase2Snoc | src/Generator/Command/GeneratorCommand.php:140-168 | One more model is resolved on the earlier result. |
| Resolution.Phase2Stops | src/Generator/Command/GeneratorCommand.php:140-168 | After the first model that fails, later models change nothing. |
| Resolution.Phase2StopsAt | src/Generator/Command/GeneratorCommand.php:140-168 | The failing prefix decides phase 2. |
| Resolution.Phase2Next | src/Generator/Command/GeneratorCommand.php:140-168 | From the registry the earlier models built, the next model is resolved on it. |
| Resolution.Phase2Valid | src/Generator/Command/GeneratorCommand.php:140-168 | Phase 2 keeps the registry valid. |
| Resolution.Select | src/Generator/Command/GeneratorCommand.php:170-181 | Fails iff `only` is truthy and not registered, with `ModelNotFound`. A truthy `only` selects that model, and anything else selects every model in registry order. |
| Resolution.Prefixes | src/Generator/Command/GeneratorCommand.php:855 | One prefix per registered model, in registry order. |
| Resolution.ApplyMixinKeepsKeys | src/Generator/Command/GeneratorCommand.php:618-637 | A mixin keeps relation names unique. |
| Resolution.AddAllMixins | src/Generator/Command/GeneratorCommand.php:184-186 | Phase 3 keeps the same models. |
| Resolution.AddAllMixinsSnoc | src/Generator/Command/GeneratorCommand.php:184-186 | One more model gets its mixins applied over its state in the earlier result. |
| Resolution.AddAllMixinsStops | src/Generator/Command/GeneratorCommand.php:184-186 | After the first model whose mixins fail, later models change nothing. |
| Resolution.AddAllMixinsStopsAt | src/Generator/Command/GeneratorCommand.php:184-186 | The failing prefix decides phase 3. |
| Resolution.AddAllMixinsValid | src/Generator/Command/GeneratorCommand.php:184-186 | Phase 3 keeps the registry valid. |
| Resolution.OrderAll | src/Generator/Command/GeneratorCommand.php:188-192 | Phase 4 keeps the same models. |
| Resolution.AddAllMixinsOutside | src/Generator/Command/GeneratorCommand.php:184-186 | A model outside the selection is unchanged. |
| Resolution.AddAllMixinsInside | src/Generator/Command/GeneratorCommand.php:184-186 | In a selection without repeats, each selected model's state is its mixins applied once over its phase-2 state. |
| Resolution.OrderAllSnoc | src/Generator/Command/GeneratorCommand.php:188-192 | One more model is ordered, then its titles are checked. |
| Resolution.OrderAllStops | src/Generator/Command/GeneratorCommand.php:188-192 | After the first failing title check, later models change nothing. |
| Resolution.OrderAllStopsAt | src/Generator/Command/GeneratorCommand.php:188-192 | The failing prefix decides phase 4. |
| Resolution.OrderAllValid | src/Generator/Command/GeneratorCommand.php:188-192 | Phase 4 keeps the registry valid. |
| Resolution.OrderAllOutside | src/Generator/Command/GeneratorCommand.php:188-192 | A model outside the selection is unchanged. |
| Resolution.OrderAllInside | src/Generator/Command/GeneratorCommand.php:188-192 | Each selected model's properties become `Order` of its own, and its titles pass. |
| Resolution.OrderAllRanked | src/Generator/Command/GeneratorCommand.php:190 | Each selected model ends sorted by rank, as a permutation of what it had. |
| Resolution.Resolve | src/Generator/Command/GeneratorCommand.php:72-168 | Phases 1 and 2 give a registry keyed by name whose order lists only registered models. |
| Resolution.ResolveValid | src/Generator/Command/GeneratorCommand.php:72-168 | After phase 2 the registry is valid, keeps phase 1's headers, and holds exactly the files' names. |
| Resolution.MixAndOrder | src/Generator/Command/GeneratorCommand.php:184-192 | Phases 3 and 4 keep the same models. |
| Resolution.Handle | src/Generator/Command/GeneratorCommand.php:62-191 | No files is `NoDefinitionFiles`. A failure to resolve is its error, and otherwise the outcome is selection, the prefix check, mixins, ordering and title checks over the wired registry. |
| Resolution.HandleResolvedValid | src/Generator/Command/GeneratorCommand.php:170-192 | A successful run keeps the registry valid and its headers. With the check on, every prefix is distinct. |
| Resolution.HandleValid | src/Generator/Command/GeneratorCommand.php:62-191 | A successful run gives a valid registry holding exactly the files' models with their parsed headers. With the check on, every prefix is distinct. |
| Resolution.HandleModelNotFound | src/Generator/Command/GeneratorCommand.php:170-175 | A truthy `only` naming no model fails with `ModelNotFound`, before the prefix check. |
| Resolution.HandlePrefixClash | src/Generator/Command/GeneratorCommand.php:182 | With the check on, two models sharing a prefix fail the run, whatever is selected. |
| Resolution.HandleSelected | src/Generator/Command/GeneratorCommand.php:184-192 | Each selected model ends as its mixins applied over its phase-2 state, then ordered, and its titles pass. |
| Resolution.HandleUnselected | src/Generator/Command/GeneratorCommand.php:170-192 | A model outside the selection keeps its phase-2 state. |
| EnumGen.GroupKeysComplete | src/Generator/Enum/GeneratorEnum.php:28 | `groupBy`: every choice's key is one of the group keys. |
| EnumGen.GroupKeysSound | src/Generator/Enum/GeneratorEnum.php:28 | Every group key is some choice's key. |
| EnumGen.GroupKeysDistinct | src/Generator/Enum/GeneratorEnum.php:28 | No group key is listed twice. |
| EnumGen.NamesWithKeyMeans | src/Generator/Enum/GeneratorEnum.php:34 | A name is in the group of key `k` iff some choice with key `k` has that name. |
| EnumGen.NamesWithKeyAt | src/Generator/Enum/GeneratorEnum.php:31 | The group of a choice's key holds at least one name. |
| EnumGen.NamesWithKeyPair | src/Generator/Enum/GeneratorEnum.php:31 | Two choices with the same key make a group of at least two. |
| EnumGen.NamesWithKeyOne | src/Generator/Enum/GeneratorEnum.php:31 | A non-empty group comes from some choice with its key. |
| EnumGen.NamesWithKeyShared | src/Generator/Enum/GeneratorEnum.php:31 | A group of two or more comes from two choices with its key. |
| EnumGen.DuplicatesIff | src/Generator/Enum/GeneratorEnum.php:26-52 | Some group is reported iff two choices share a key. |
| EnumGen.DuplicateGroupsMeans | src/Generator/Enum/GeneratorEnum.php:26-52 | The reported groups are exactly the keys shared by more than one choice, each with the names of all its choices. |
| EnumGen.CheckChoices | src/Generator/Enum/GeneratorEnum.php:25-57 | A passing check implies the enum has at least one choice: reading `choices[0]` of none is an error. |
| EnumGen.IndexedDuplicates | src/Generator/Enum/GeneratorEnum.php:25-38 | An indexed enum whose choices all have an index fails iff two choices share an index. |
| EnumGen.IndexedNeedsEveryIndex | src/Generator/Enum/GeneratorEnum.php:25-38 | An indexed enum with a choice that has no index fails with a type error. |
| EnumGen.ValueDuplicates | src/Generator/Enum/GeneratorEnum.php:39-53 | A string enum fails iff two choices share a value; a missing value and `''` share the key `''`. |
| EnumGen.CaseOf | src/Generator/Enum/GeneratorEnum.php:69 | A case takes the choice's name and its index if any, else its value, else no value. |
| EnumGen.FromNameArmReads | src/Generator/Enum/GeneratorEnum.php:80 | Each `fromName` arm matches its choice's name and returns the case of that name. |
| EnumGen.IntBackedCases | src/Generator/Enum/GeneratorEnum.php:61-70 | An `int`-backed enum gives an integer value to every case. |
| EnumGen.AddCases | src/Generator/Enum/GeneratorEnum.php:68-70 | One case per choice, in order, each `CaseOf` its choice. |
| EnumGen.BuildFromName | src/Generator/Enum/GeneratorEnum.php:77-83 | The `.=` loop builds `FromNameBody` of the choices. |
| EnumGen.GenerateEnum | src/Generator/Enum/GeneratorEnum.php:23-85 | The method computes `EnumOf`: the check, the backing type, the cases and the `fromName` body. |
| Migration.ColumnArgumentsEnd | src/Generator/Model/GeneratorMigration.php:47-50 | A column's arguments close with a `)` that does not follow `(`. |
| Migration.ColumnStatementShape | src/Generator/Model/GeneratorMigration.php:44-52 | The statement starts with `$table->` and the column type, and ends nullable iff the property is not required. |
| Migration.StoredProperties | src/Generator/Model/GeneratorMigration.php:36-42 | A property has a column iff it is neither computed nor media. |
| Migration.StoredSnoc | src/Generator/Model/GeneratorMigration.php:35-43 | One more property adds itself to the stored ones iff it has a column. |
| Migration.CreateColumnsSelect | src/Generator/Model/GeneratorMigration.php:35-53 | The create migration has one column line per stored property, in collection order. |
| Migration.CreateColumnsFail | src/Generator/Model/GeneratorMigration.php:35-53 | The column lines fail iff some stored property has no column type. |
| Migration.IndexLineUnique | src/Generator/Model/GeneratorMigration.php:66-75 | An index line declares `unique` iff the group's name is in the table's unique list. |
| Migration.CreateColumnsAbort | src/Generator/Model/GeneratorMigration.php:35-53 | An error part-way through the column loop is the error of the whole loop. |
| Migration.AddCreateColumns | src/Generator/Model/GeneratorMigration.php:35-53 | The column loop computes `CreateColumnLines`. |
| Migration.AddCreateIndexes | src/Generator/Model/GeneratorMigration.php:61-76 | The index loop computes `CreateIndexLines`, skipping the `['id']` group. |
| Migration.GenerateCreateBody | src/Generator/Model/GeneratorMigration.php:32-78 | The schema block computes `CreateBody`. |
| Migration.AddsMeans | src/Generator/Model/GeneratorMigration.php:216-225 | A column is added exactly for each stored property whose name is not a column, paired with the stored property before it. |
| Migration.AddsInOrder | src/Generator/Model/GeneratorMigration.php:216-225 | The added properties are the stored properties missing from the table, in order. |
| Migration.DetermineColumnsToAdd | src/Generator/Model/GeneratorMigration.php:216-225 | The first loop computes `Adds`. |
| Migration.DetermineColumnsToRemove | src/Generator/Model/GeneratorMigration.php:227-231 | The second loop computes `Removes`. |
| Migration.DetermineColumnsToAddAndRemove | src/Generator/Model/GeneratorMigration.php:210-234 | The pair is `Adds` and `Removes`. |
| Migration.MigratedColumnsCover | src/Generator/Model/GeneratorMigration.php:210-234 | After the migration every stored property has a column. |
| Migration.MigratedColumnsSound | src/Generator/Model/GeneratorMigration.php:227-231 | After the migration every column is named after some property, computed or media ones included. |
| Migration.IndexesToAddAndChange | src/Generator/Model/GeneratorMigration.php:239-266 | Each index name is added or changed at most once. |
| Migration.IndexDiffLookup | src/Generator/Model/GeneratorMigration.php:246-263 | A missing index is added with the columns of the last group under its name. An existing one is changed to the last differing group's columns. |
| Migration.IndexDiffEmpty | src/Generator/Model/GeneratorMigration.php:246-263 | Nothing is added or changed iff every group is already an index under its name with the same column set. |
| Migration.CompareIndex | src/Generator/Model/GeneratorMigration.php:246-263 | One group of the loop extends the diff of the groups before it. |
| Migration.DetermineIndexesToAddAndChange | src/Generator/Model/GeneratorMigration.php:239-266 | The loop computes `IndexesToAddAndChange`. |
| Migration.MigrationFileNameKind | src/Generator/Model/GeneratorMigration.php:272-283 | The name starts with `add_` iff exactly one column is added. Otherwise it starts with `remove_` iff exactly one column is removed, and with `update_` in every remaining case. |
| Migration.MigrationFileNameParts | src/Generator/Model/GeneratorMigration.php:272-283 | The name carries the added or removed column when there is exactly one, and the table, and ends in `_table.php`. |
| Migration.NoAddsIff | src/Generator/Model/GeneratorMigration.php:216-225 | No column is added iff every stored property already has one. |
| Migration.NoRemovesIff | src/Generator/Model/GeneratorMigration.php:227-231 | No column is removed iff every column is named after a property. |
| Migration.NoUpdateIffInSync | src/Generator/Model/GeneratorMigration.php:100-104 | No update migration is made iff the table is in sync with the model. |
| Migration.PlanMigrationUpdate | src/Generator/Model/GeneratorMigration.php:93-104 | The method computes `UpdatePlanOf`: the adds, the removes, the index diff and the file name. |
| TypeScript.PropertyTypeName | src/Generator/Model/GeneratorTypeScriptType.php:125-150 | An enum property gives its enum name. Otherwise the type fails iff it is ENUM, and the name is the table's entry. |
| TypeScript.TableNameScalars | src/Generator/Model/GeneratorTypeScriptType.php:128-135 | Exactly ID, TEXT, STRING, TIMESTAMP and ULID are `string`; only INTEGER is `number`. |
| TypeScript.TableNameLists | src/Generator/Model/GeneratorTypeScriptType.php:136-147 | A name ends in `[]` iff the type is JSON_ARRAY or a media collection. |
| TypeScript.TypeByPropertyShape | src/Generator/Model/GeneratorTypeScriptType.php:123-161 | A type exists iff the name does. It is the bare name iff the property is required and not conditionally fetched, and it is made nullable otherwise. |
| TypeScript.TypeByRelationShape | src/Generator/Model/GeneratorTypeScriptType.php:97-121 | Only a monomorphic relation has a type. BELONGS_TO is bare iff required and eager-loaded; HAS_MANY is a list, bare iff eager-loaded; nullable otherwise. |
| TypeScript.MembersCoverProperties | src/Generator/Model/GeneratorTypeScriptType.php:72-90 | The inherited and the other property members together are the get-request properties, a permutation, split by inheritance. |
| TypeScript.InterfaceOfErr | src/Generator/Model/GeneratorTypeScriptType.php:67-95 | An interface exists iff every member has a type; the error is the first missing one's. |
| TypeScript.InterfaceOfOk | src/Generator/Model/GeneratorTypeScriptType.php:67-95 | The text is the head, one line per member in order (indent, name, `: `, type, `;`), then `}`. |
| TypeScript.GenerateInterface | src/Generator/Model/GeneratorTypeScriptType.php:67-95 | The three loops compute `InterfaceOf`. |
| TypeScript.EnumMemberLineReads | src/Generator/Model/GeneratorTypeScriptType.php:168 | An enum line names the choice and quotes its value when that is truthy, else its name. |
| TypeScript.EnumValueZero | src/Generator/Model/GeneratorTypeScriptType.php:168 | A choice whose value is `'0'` is sent under its name. |
| TypeScript.GenerateEnumType | src/Generator/Model/GeneratorTypeScriptType.php:163-174 | The loop computes `EnumText`. |
| TypeScript.InlineEnumDefinition | src/Generator/Definition/EnumPropertyDefinition.php:123-134 | For an inline enum property, the result is `generateEnumDefinition`'s. |
| TypeScript.TypeContentsInterfaces | src/Generator/Model/GeneratorTypeScriptType.php:44-50 | The contents exist iff every model's interface does, and then hold each interface. |
| TypeScript.AppendEnums | src/Generator/Model/GeneratorTypeScriptType.php:47-49 | The enum texts of one model follow the contents, in order. |
| TypeScript.AddModel | src/Generator/Model/GeneratorTypeScriptType.php:44-50 | One model extends the contents of the models before it. |
| TypeScript.GenerateTypeFile | src/Generator/Model/GeneratorTypeScriptType.php:39-52 | The loop and the join compute `TypeFile`. |
| UlidPrefix.Capitals | src/Generator/Command/GeneratorCommand.php:829-830 | There are no more capitals than characters. |
| UlidPrefix.CapitalsIn | src/Generator/Command/GeneratorCommand.php:829-830 | Each capital kept is an upper-case letter of the string. |
| UlidPrefix.RemoveVowels | src/Generator/Command/GeneratorCommand.php:837 | Removing vowels never lengthens the string. |
| UlidPrefix.RemoveVowelsIn | src/Generator/Command/GeneratorCommand.php:837 | Each character kept is a non-vowel of the string. |
| UlidPrefix.FirstIndexOf | src/Generator/Command/GeneratorCommand.php:835 | `strpos` of a character that occurs points at that character. |
| UlidPrefix.FirstIndexOfFirst | src/Generator/Command/GeneratorCommand.php:835 | No earlier position holds it. |
| UlidPrefix.LowerLetters | src/Generator/Command/GeneratorCommand.php:833-842 | Lower-casing letters of the prefix gives letters of the lower-cased prefix. |
| UlidPrefix.PrefixFromShape | src/Generator/Command/GeneratorCommand.php:832-844 | Every rule gives at most three characters, none upper-case, each found in the lower-cased name. Only the two-capital rule fails, exactly when it reads past the end. |
| UlidPrefix.GenerateUlidPrefix | src/Generator/Command/GeneratorCommand.php:826-847 | The prefix has at most three characters, none upper-case, each found in the lower-cased name without `Model`. It is an error exactly when the two-capital rule reads past the end. |
| UlidPrefix.CapitalsAppend | src/Generator/Command/GeneratorCommand.php:829 | Capitals distribute over concatenation. |
| UlidPrefix.ThreeWords | src/Generator/Command/GeneratorCommand.php:832-833 | `UserAccountSetting` gives `uas`. |
| UlidPrefix.OneWord | src/Generator/Command/GeneratorCommand.php:837-842 | `Order` gives `ord`. |
| UlidPrefix.TwoCapitalsRule | src/Generator/Command/GeneratorCommand.php:834-835 | Two capitals give both, then the letter after the first occurrence of the second, lower-cased. |
| UlidPrefix.TwoWords | src/Generator/Command/GeneratorCommand.php:834-835 | `BlogPost` gives `bpo`. |
| UlidPrefix.TwoCapitalsAtEnd | src/Generator/Command/GeneratorCommand.php:835 | `AB` has no letter after the second capital: the error case. |
| UlidPrefix.DistinctCount | src/Generator/Command/GeneratorCommand.php:857 | With `unique()` read as strict string equality, `unique()->count()` equals the count iff the prefixes are pairwise distinct; PHP's loose comparison of numeric strings is not modelled (see "## Left out"). |
| UlidPrefix.ValidateUlidPrefixUnique | src/Generator/Command/GeneratorCommand.php:849-862 | Fails iff the check is on and two prefixes are equal as strings, with `UlidPrefixesNotUnique`; prefixes that PHP merges only by loose numeric comparison pass here (see "## Left out"). |
| Layout.Indent | src/Generator/Generator.php:16-19 | `indent(n)` is `4 n` characters long. |
| Layout.ConcatAppend | src/Generator/Generator.php:16-19 | The text of two runs of `.=` is the two texts concatenated. |
| Layout.LinesOk | src/Generator/Model/GeneratorTypeScriptType.php:71-91 | A successful line loop gives one line per element, each that element's line. |
| Layout.LinesErr | src/Generator/Model/GeneratorTypeScriptType.php:71-91 | A line loop fails iff some element has no line, with the first such element's error. |
| Layout.LinesAbort | src/Generator/Model/GeneratorTypeScriptType.php:71-91 | After the first element without a line, later elements change nothing. |
| Layout.AppendLines | src/Generator/Model/GeneratorTypeScriptType.php:71-91 | One `foreach` with `.=` extends the lines of the earlier loops, or gives the first error. |
| Layout.AppendLinesInTurn | src/Generator/Model/GeneratorTypeScriptType.php:71-91 | Three loops in turn compute the text of the lines of all three lists. |
| Layout.PiecesOk | src/Generator/Model/GeneratorTypeScriptType.php:44-50 | A multi-piece loop succeeds iff every element's pieces do, and then holds them all. |
| Layout.PiecesAbort | src/Generator/Model/GeneratorTypeScriptType.php:44-50 | After the first failing element, later elements change nothing. |
| Text.SplitPiecesFree | src/Generator/Definition/ModelDefinition.php:99-104 | No piece of `explode` contains the delimiter. |
| Text.JoinSplit | src/Generator/Definition/ModelDefinition.php:99-104 | `implode(c, explode(c, s))` is `s`. |
| Text.SplitJoin | src/Generator/Definition/ModelDefinition.php:99-104 | `explode` undoes `implode` when no part contains the delimiter. |
| Text.AppendSegments | src/Generator/Definition/ModelDefinition.php:99-104 | Exploding a namespace, adding two segments and joining is appending them. |
| Text.ClassBasename | src/Generator/Definition/EnumPropertyDefinition.php:57-60 | `class_basename` contains no slash. |
| Text.RemoveAll | src/Generator/Command/GeneratorCommand.php:828 | `str_replace` with an empty replacement never lengthens the string, and an empty needle changes nothing. |
| Text.RemoveAllAbsent | src/Generator/Command/GeneratorCommand.php:828 | A string with no occurrence of a non-empty needle is left unchanged, so a class base name without `Model` reaches the prefix rules unchanged. |
| Text.ToLower | src/Generator/Command/GeneratorCommand.php:833 | `strtolower` keeps the length, lower-cases each ASCII capital and leaves no capital. |
| Text.Take | src/Generator/Command/GeneratorCommand.php:837-840 | `substr(s, 0, n)` is the first `n` characters, or all of them when there are fewer. |

## Left out

- Reading the definition files is not modelled: the `glob`, the JSON decoding and the JSON-schema validation. The model starts from the decoded definitions, one `ModelInput` per file, with optional fields as `Option`. A file that fails validation is outside the model.
- Console output (`comment`, `info`, `error`, `warn`) and the exit codes are not modelled; each failure is an `Err` with a structured payload naming the values involved. The exception message texts are not reproduced.
- `exit(1)` in `validateUlidPrefixUniqueIfNeeded` becomes an error outcome of the run.
- `Str` inflection (`snake`, `plural`, `studly`, `title`) is a parameter (`Collaborators.Inflector`), not an implementation, and so is the `laravel-generator.ulid_prefix` configuration value.
- PHP enums referenced by class name (`ReflectionEnum`, `EnumLib`) are a map from class name to backing type and cases, given as a parameter.
- The namespace derived from the definition file's path (`GeneratorCommand.php:103-113`) is an input of each file rather than computed from the path.
- `Resolution.Handle` and `Command.GeneratorCommand.Handle` stop after ordering and the title checks (GeneratorCommand.php:190-191). The generator calls that follow in the same per-model loop (:193-241) are not part of them, and neither are the two failures those calls can add. `GeneratorEnum::generateEnum` throws on duplicate choices (`EnumGen.CheckChoices`, modelled on its own). A `--migration` value other than `create` or `update` makes `handle` return 1. So a selected model whose inline enum has two choices with the same value makes `handle` fail, while `Resolution.Handle` is `Ok`. Because these calls run inside the loop, such a failure also comes before the next selected model's ordering and title check, and the model does not capture that order.
- The per-model emitters `GeneratorModel`, `GeneratorNova`, `GeneratorQuery`, `GeneratorObserver`, `GeneratorResource`, `GeneratorRequest` and `GeneratorEvent` are not part of this model; nor are the file paths, dates and writes of every generator, or `copyTypeScriptTypeFiles`.
- `GeneratorEnum`'s PHP output is modelled as a structured `EnumOf` value (backing type, cases, `fromName` body) instead of the printed `nette/php-generator` file.
- The migration header and footer, the `down()` bodies, and the text of the update migration are not modelled. The update migration is modelled as the plan it prints (`Migration.UpdatePlanOf`), and the Doctrine re-creation of dropped columns in `down()` is left out.
- The table's column listing and its current indexes (`Schema::getColumnListing`, Doctrine's `listTableIndexes`) are inputs; the case folding Doctrine applies to index names is not modelled.
- `array_diff` on index columns is modelled as set equality of the two column lists, which is what the two empty differences mean.
- The `PropertyDefinition` constructors do not agree across the source files, and the model follows what the callers mean. `PropertyDefinition.php:40-53` declares only `isFromRelation`. Yet `RelationDefinition.php:85,113,136` pass `fromRelation: $this`, `EnumPropertyDefinition.php:46` passes `isAppendedInResource` positionally into the `rules` slot, `GeneratorCommand.php:461-511` omits the enum constructor's required `isAppendedInResource`, and `PropertyCollection.php:39,47,63,213,293` read `fromRelation` and `isAppendedInResource`. As written these calls throw (unknown named parameter, `TypeError`, `ArgumentCountError`). The model instead gives every property both fields: `isAppendedInResource` is false unless given, `fromRelation` is `None` for declared and mixin properties, and the foreign-key properties of a relation carry `Some` of that relation.
- PHP's loose comparison (in `in_array`, `contains`, `firstWhere` and `unique()`) is modelled as strict equality; definitions in which the two differ are outside the model. That covers numbers against numeric strings, and two numeric strings with the same numeric value, such as `"1"` and `"01"` or `"10"` and `"1e1"`.
- UlidPrefix.DistinctCount: reads `unique()` (GeneratorCommand.php:857, `array_unique` with `SORT_REGULAR`) as strict string equality. PHP compares two numeric strings by value, so it merges `"1"` and `"01"`, which the model counts twice. Loose comparison depends on PHP's numeric-string grammar and float conversion, which the model does not include.
- UlidPrefix.ValidateUlidPrefixUnique: passes prefixes that differ as strings but are equal as numbers. Examples are explicit prefixes `"1"` and `"01"`, or models `Model1` and `Model01`, whose derived prefixes are `1` and `01`. PHP reports `UlidPrefixesNotUnique` for them and exits with status 1. The model's check is exact whenever no two prefixes are numeric strings.
- Object identity is not modelled: a relation's counterpart and a property's owner are `ModelRef` values (name, namespace, request), not aliases of the registered objects, so later changes to a model are not seen through references taken earlier.
- `Models.ModelDefinition.AddPropertyAfter`: PHP slices at the *key* `search` returns; the model uses the position. The collection built at `GeneratorCommand.php:127-132` keeps the declared properties' string keys after the defaults' keys 0-3, so keys and positions differ in general; the one anchor the command uses, `updated_at`, sits at key 3, which is also position 3.
- `PropertyCollection.Get`: the fallback of `Collection::get` to a collection key is not modelled; only the lookup by name is.
- `hasEvent` (`ModelDefinition.php:152-155`) returns a relation where a `bool` is declared; it is used only by the emitters and is not modelled.
- The unreachable `default` arm of `addMixins` is not modelled: every parsed mixin has one of the three types.
- The state left behind by an exception part-way through a phase is not modelled: a failing run gives only its error.
- The `->sort()` in `validateUlidPrefixUniqueIfNeeded` does not change the count of distinct prefixes and is not modelled.
- Strings are sequences of characters; byte-level behaviour of `strlen`, `substr` and `strtolower` on non-ASCII text is not modelled. `PHP_EOL` is `"\n"`.
- `Parsing.SpreadNova`: only the six keys `NovaDefinition` accepts besides `name` are modelled. The spread at `GeneratorCommand.php:532` and `:549` also lets a `name` key in the file's `nova` object override the property name; the model ignores that key and always uses the property name. An unknown key (a PHP error) is outside the model.
- `Parsing.DeclaredNova`: the `help` of a plain or enum property reads `$relationDefinition`, which is not defined in those functions, so `?? null` always gives null; the model has no help text there.
- `TypeScript.GenerateInterface`: the three member loops are one generic loop (`Layout.AppendLines`) run three times over the inherited properties, the relations and the other properties.
- `TypeScript.GenerateTypeFile` takes the models as (name, state) pairs, in registry order.
- Concurrency, the database connection and the filesystem are not modelled.
