/** The decoded JSON of one model definition file (app/<Domain>/Definition/<Name>.json), after schema validation.
  * A key that the file leaves out is `None`; JSON objects keyed by name (properties,
  * relations) are sequences of (key, value) pairs in file order. */
module Specs {
  import opened Wrappers

  /** A request status as written: `true`, `false` or a string such as `"conditional"`. */
  datatype RawStatus = RawBool(b: bool) | RawString(s: string)

  /** The `request` object; an absent object is `RequestSpec(None, None, None, None)`. */
  datatype RequestSpec = RequestSpec(
    required: Option<bool>,
    get: Option<RawStatus>,
    create: Option<RawStatus>,
    update: Option<RawStatus>)

  /** The `nova` object; an absent object has every key `None`. */
  datatype NovaSpec = NovaSpec(
    novaType: Option<string>,
    help: Option<string>,
    showOnIndex: Option<bool>,
    showOnDetail: Option<bool>,
    showWhenCreating: Option<bool>,
    showWhenUpdating: Option<bool>)

  datatype ChoiceSpec = ChoiceSpec(name: string, value: Option<string>, index: Option<int>, color: Option<string>)

  datatype PropertySpec = PropertySpec(
    propertyType: string,
    labelText: Option<string>,
    required: bool,
    computed: Option<bool>,
    rules: Option<seq<string>>,
    request: RequestSpec,
    nova: NovaSpec,
    index: Option<string>,
    choices: Option<seq<ChoiceSpec>>,
    enumName: Option<string>,
    initial: Option<string>,
    asynchronousUpload: Option<bool>)

  /** The `with` key: one model name, or a list of names. */
  datatype WithSpec = One(name: string) | Many(names: seq<string>)

  datatype RelationSpec = RelationSpec(
    relationType: string,
    with: WithSpec,
    foreignKey: Option<string>,
    createCounterRelation: Option<bool>,
    eager: Option<bool>,
    event: Option<bool>,
    required: Option<bool>,
    computed: Option<bool>,
    index: Option<string>,
    request: RequestSpec,
    nova: NovaSpec)

  datatype MixinSpec = MixinSpec(name: string, address: Option<bool>)

  datatype TableSpec = TableSpec(name: Option<string>, unique: Option<seq<string>>, log: Option<bool>)

  datatype ModelSpec = ModelSpec(
    table: TableSpec,
    observer: Option<bool>,
    title: seq<string>,
    mixins: seq<MixinSpec>,
    request: RequestSpec,
    required: Option<bool>,
    ulidPrefix: Option<string>,
    properties: seq<(string, PropertySpec)>,
    relations: seq<(string, RelationSpec)>)

  /** One definition file: the model name (the file name) and the namespace derived from its path. */
  datatype ModelInput = ModelInput(name: string, namespace: string, spec: ModelSpec)
}
