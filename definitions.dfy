/** The definition records of src/Generator/Definition.
  *
  * Everything but a model is a value. A model is the object `Models.ModelDefinition`;
  * `ModelHeader` and `ModelState` are its fixed and its changing parts as values.
  * Properties and relations keep a `ModelRef` to their owning (or counterpart) model: the
  * parts of the model object they read (name, namespace, model-level request), none of
  * which changes after construction. */
module Definitions {
  import opened Wrappers
  import opened Enums
  import opened Specs

  /** `RequestDefinition`: whether a field is required and in which requests it appears. */
  datatype RequestDefinition = RequestDefinition(
    name: string,
    isRequired: bool,
    getStatus: RequestStatus,
    createStatus: RequestStatus,
    updateStatus: RequestStatus)

  /** `new RequestDefinition(name, isRequired)`: the three statuses default to INCLUDE. */
  function DefaultRequest(name: string, isRequired: bool): (r: RequestDefinition)
    ensures r.name == name && r.isRequired == isRequired
    ensures r.getStatus == Include && r.createStatus == Include && r.updateStatus == Include
  {
    RequestDefinition(name, isRequired, Include, Include, Include)
  }

  /** `NovaDefinition`: the admin-panel field type, help text and four visibility flags. */
  datatype NovaDefinition = NovaDefinition(
    name: string,
    novaType: Option<string>,
    help: Option<string>,
    showOnIndex: bool,
    showOnDetail: bool,
    showWhenCreating: bool,
    showWhenUpdating: bool)

  /** `new NovaDefinition(name)`: no type, no help, all four flags true. */
  function DefaultNova(name: string): (r: NovaDefinition)
    ensures r.name == name && r.novaType.None? && r.help.None?
    ensures r.showOnIndex && r.showOnDetail && r.showWhenCreating && r.showWhenUpdating
  {
    NovaDefinition(name, None, None, true, true, true, true)
  }

  /** A NovaDefinition with explicit flags and no type or help. */
  function Nova(name: string, index: bool, detail: bool, creating: bool, updating: bool): NovaDefinition {
    NovaDefinition(name, None, None, index, detail, creating, updating)
  }

  datatype TableDefinition = TableDefinition(name: string, allUniqueIndexName: seq<string>, shouldLogActivity: bool)

  /** `MixinDefinition` and its subclass `GeolocationMixinDefinition`. */
  datatype MixinDefinition =
    | PlainMixin(name: string, mixinType: MixinType)
    | GeolocationMixinDefinition(name: string, mixinType: MixinType, shouldIncludeAddress: bool)

  datatype EnumChoice = EnumChoice(name: string, value: Option<string>, index: Option<int>, color: Option<EnumColor>)

  datatype EnumDefinition = EnumDefinition(name: string, namespace: string, choices: seq<EnumChoice>)

  /** What a property or relation reads of a model object: its name, namespace and request. */
  datatype ModelRef = ModelRef(name: string, namespace: string, request: RequestDefinition)

  /** Where an enum property's choices come from: inline `choices`, or an existing enum class. */
  datatype EnumSource = Inline(choices: seq<EnumChoice>) | External(enumName: string)

  /** The subclass of `PropertyDefinition` a property was built as, with its extra fields. */
  datatype PropertyKind =
    | Plain
    | EnumKind(source: EnumSource)
    | Json(initial: string)
    | Media(asynchronousUpload: bool)

  datatype PropertyDefinition = PropertyDefinition(
    name: string,
    owner: ModelRef,
    propertyType: PropertyType,
    labelText: string,
    isRequired: bool,
    isComputed: bool,
    isAppendedInResource: bool,
    rules: seq<string>,
    request: RequestDefinition,
    nova: NovaDefinition,
    index: Option<string>,
    isInherited: bool,
    fromRelation: Option<RelationDefinition>,
    kind: PropertyKind)

  /** `RelationMonomorphicDefinition` has one counterpart, `RelationPolymorphicDefinition` a list. */
  datatype Counterpart = Single(model: ModelRef) | Multiple(models: seq<ModelRef>)

  datatype RelationDefinition = RelationDefinition(
    name: string,
    propertyName: string,
    owner: ModelRef,
    relationType: RelationType,
    shouldCreateCounterRelation: bool,
    shouldEagerLoad: bool,
    isEvent: bool,
    isRequired: bool,
    isComputed: bool,
    index: string,
    request: RequestDefinition,
    nova: NovaDefinition,
    counterpart: Counterpart)

  /** The parts of a `ModelDefinition` fixed at construction: everything but the
    * observer flag, the properties and the relations. */
  datatype ModelHeader = ModelHeader(
    name: string,
    namespace: string,
    table: TableDefinition,
    titleAttributes: seq<string>,
    mixins: seq<MixinDefinition>,
    request: RequestDefinition,
    ulidPrefix: string,
    original: ModelSpec)
  {
    /** The reference a property or relation keeps to this model. */
    function Ref(): (r: ModelRef)
      ensures r.name == name && r.namespace == namespace && r.request == request
    {
      ModelRef(name, namespace, request)
    }
  }

  /** The parts of a `ModelDefinition` the engine changes after construction. */
  datatype ModelState = ModelState(
    hasObserver: bool,
    properties: seq<PropertyDefinition>,
    relations: seq<RelationDefinition>)
}
