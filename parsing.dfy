/** The parsing half of src/Generator/Command/GeneratorCommand.php: one decoded definition
  * file becomes a model header, its default and declared properties and its mixins; a
  * declared relation is resolved against the registry of model references. */
module Parsing {
  import opened Wrappers
  import opened Text
  import opened Seqs
  import opened Enums
  import opened Errors
  import opened Specs
  import opened Collaborators
  import opened Definitions
  import RelationCollection
  import UlidPrefix
  import Properties

  // ---- requests ----

  /** The JSON value that spells each status: `true`, `false` and `"conditional"`. */
  function StatusSpelling(s: RequestStatus): RawStatus {
    match s
    case Include => RawBool(true)
    case Exclude => RawBool(false)
    case IncludeConditionally => RawString("conditional")
  }

  /** `parseRequestStatus`: a status other than the caller's fallback comes only from its own
    * spelling, and anything that spells no status gives the fallback. */
  function ParseRequestStatus(status: Option<RawStatus>, fallback: RequestStatus): (r: RequestStatus)
    ensures r != fallback ==> status == Some(StatusSpelling(r))
    ensures (forall s :: status != Some(StatusSpelling(s))) ==> r == fallback
  {
    match status
    case Some(RawBool(b)) => if b then Include else Exclude
    case Some(RawString(s)) => if s == "conditional" then IncludeConditionally else fallback
    case None => fallback
  }

  /** Each status is read back from its own spelling, whatever the fallback. */
  lemma {:induction false} ParseRequestStatusRoundTrip(s: RequestStatus, fallback: RequestStatus)
    ensures ParseRequestStatus(Some(StatusSpelling(s)), fallback) == s
  {
  }

  /** `parseRequest`: `request.required`, else the definition's own `required`, else false;
    * each status parsed with the caller's fallback. */
  function ParseRequest(name: string, spec: RequestSpec, required: Option<bool>, fallback: RequestStatus): (r: RequestDefinition)
    ensures r.name == name
    ensures r.isRequired <==> spec.required == Some(true) || (spec.required.None? && required == Some(true))
    ensures r.getStatus != fallback ==> spec.get == Some(StatusSpelling(r.getStatus))
    ensures r.createStatus != fallback ==> spec.create == Some(StatusSpelling(r.createStatus))
    ensures r.updateStatus != fallback ==> spec.update == Some(StatusSpelling(r.updateStatus))
  {
    RequestDefinition(
      name,
      spec.required.GetOr(required.GetOr(false)),
      ParseRequestStatus(spec.get, fallback),
      ParseRequestStatus(spec.create, fallback),
      ParseRequestStatus(spec.update, fallback))
  }

  /** Without a `request` object every status is the fallback; with fallback INCLUDE that is
    * `new RequestDefinition(name, isRequired)`. */
  lemma {:induction false} ParseRequestOfNothing(name: string, required: Option<bool>, fallback: RequestStatus)
    ensures ParseRequest(name, RequestSpec(None, None, None, None), required, fallback)
            == RequestDefinition(name, required == Some(true), fallback, fallback, fallback)
    ensures ParseRequest(name, RequestSpec(None, None, None, None), required, Include)
            == DefaultRequest(name, required == Some(true))
  {
  }

  // ---- properties ----

  /** The four inherited properties every model starts with (`generateDefaultProperties`). */
  function DefaultProperties(owner: ModelRef): (ps: seq<PropertyDefinition>)
    ensures |ps| == 4
    ensures ps[0].name == "id" && ps[1].name == "ulid" && ps[2].name == "created_at" && ps[3].name == "updated_at"
    ensures ps[0].propertyType == Id && ps[1].propertyType == Ulid
    ensures ps[2].propertyType == Timestamp && ps[3].propertyType == Timestamp
    ensures forall i :: 0 <= i < 4 ==>
      && ps[i].owner == owner && ps[i].isInherited && ps[i].isRequired && !ps[i].isComputed && !ps[i].isAppendedInResource
      && ps[i].fromRelation.None? && ps[i].index == Some(ps[i].name) && ps[i].rules == [] && ps[i].kind == Plain
      && !ps[i].request.isRequired && ps[i].request.createStatus == Exclude && ps[i].request.updateStatus == Exclude
      && !ps[i].nova.showWhenCreating && !ps[i].nova.showWhenUpdating && ps[i].nova.showOnDetail
    ensures ps[0].request.getStatus == Exclude
    ensures forall i :: 1 <= i < 4 ==> ps[i].request.getStatus == Include
    ensures ps[1].request.name == "id" && ps[0].request.name == "id"
    ensures ps[2].request.name == "created_at" && ps[3].request.name == "updated_at"
  {
    [ PropertyDefinition("id", owner, Id, "ID", true, false, false, [],
        RequestDefinition("id", false, Exclude, Exclude, Exclude),
        Nova("id", true, true, false, false), Some("id"), true, None, Plain),
      PropertyDefinition("ulid", owner, Ulid, "ULID", true, false, false, [],
        RequestDefinition("id", false, Include, Exclude, Exclude),
        Nova("ulid", false, true, false, false), Some("ulid"), true, None, Plain),
      PropertyDefinition("created_at", owner, Timestamp, "Created", true, false, false, [],
        RequestDefinition("created_at", false, Include, Exclude, Exclude),
        Nova("created_at", true, true, false, false), Some("created_at"), true, None, Plain),
      PropertyDefinition("updated_at", owner, Timestamp, "Updated", true, false, false, [],
        RequestDefinition("updated_at", false, Include, Exclude, Exclude),
        Nova("updated_at", false, true, false, false), Some("updated_at"), true, None, Plain) ]
  }

  /** `label ?? Str::title(str_replace('_', ' ', name))`. */
  function Label(inf: Inflector, name: string, labelText: Option<string>): string {
    labelText.GetOr(inf.title(ReplaceChar(name, '_', ' ')))
  }

  /** The admin definition of a plain or enum property: no help text; index and detail shown
    * unless the file says otherwise; the two edit flags default to "not computed". */
  function DeclaredNova(name: string, spec: NovaSpec, computed: Option<bool>): (n: NovaDefinition)
    ensures n.name == name && n.novaType == spec.novaType && n.help.None?
    ensures spec.showOnIndex.None? ==> n.showOnIndex
    ensures spec.showOnDetail.None? ==> n.showOnDetail
    ensures spec.showWhenCreating.None? ==> (n.showWhenCreating <==> computed != Some(true))
    ensures spec.showWhenUpdating.None? ==> (n.showWhenUpdating <==> computed != Some(true))
    ensures spec.showOnIndex.Some? ==> n.showOnIndex == spec.showOnIndex.value
    ensures spec.showOnDetail.Some? ==> n.showOnDetail == spec.showOnDetail.value
    ensures spec.showWhenCreating.Some? ==> n.showWhenCreating == spec.showWhenCreating.value
    ensures spec.showWhenUpdating.Some? ==> n.showWhenUpdating == spec.showWhenUpdating.value
  {
    var editable := !computed.GetOr(false);
    NovaDefinition(
      name, spec.novaType, None,
      spec.showOnIndex.GetOr(true), spec.showOnDetail.GetOr(true),
      spec.showWhenCreating.GetOr(editable), spec.showWhenUpdating.GetOr(editable))
  }

  /** `new NovaDefinition(...['name' => name, ...nova])` of a JSON or media property: each key
    * the file gives, every other one at the constructor's default. */
  function SpreadNova(name: string, spec: NovaSpec): (n: NovaDefinition)
    ensures n.name == name && n.novaType == spec.novaType && n.help == spec.help
    ensures n.showOnIndex <==> spec.showOnIndex != Some(false)
    ensures n.showOnDetail <==> spec.showOnDetail != Some(false)
    ensures n.showWhenCreating <==> spec.showWhenCreating != Some(false)
    ensures n.showWhenUpdating <==> spec.showWhenUpdating != Some(false)
  {
    NovaDefinition(
      name, spec.novaType, spec.help,
      spec.showOnIndex.GetOr(true), spec.showOnDetail.GetOr(true),
      spec.showWhenCreating.GetOr(true), spec.showWhenUpdating.GetOr(true))
  }

  /** Without a `nova` object a non-computed property gets the constructor's defaults either
    * way, and a computed one is hidden from both edit forms. */
  lemma {:induction false} NovaOfNothing(name: string, computed: Option<bool>)
    ensures SpreadNova(name, NovaSpec(None, None, None, None, None, None)) == DefaultNova(name)
    ensures computed != Some(true) ==> DeclaredNova(name, NovaSpec(None, None, None, None, None, None), computed) == DefaultNova(name)
    ensures computed == Some(true) ==> DeclaredNova(name, NovaSpec(None, None, None, None, None, None), computed) == Nova(name, true, true, false, false)
  {
  }

  /** One inline choice; a `color` that is no `EnumColorEnum` value throws. */
  function ParseChoice(c: ChoiceSpec): (r: Result<EnumChoice, Error>)
    ensures r.Err? <==> c.color.Some? && EnumColorFrom(c.color.value).None?
    ensures r.Err? ==> r.error == UnknownEnumColor(c.color.value)
    ensures r.Ok? ==> r.value.name == c.name && r.value.value == c.value && r.value.index == c.index
    ensures r.Ok? ==> (r.value.color.Some? <==> c.color.Some?)
    ensures r.Ok? && c.color.Some? ==> EnumColorValue(r.value.color.value) == c.color.value
  {
    match c.color
    case None => Ok(EnumChoice(c.name, c.value, c.index, None))
    case Some(s) =>
      match EnumColorFrom(s)
      case None => Err(UnknownEnumColor(s))
      case Some(color) => Ok(EnumChoice(c.name, c.value, c.index, Some(color)))
  }

  /** The fields every declared property shares, with the subclass's type, index and kind. */
  function DeclaredProperty(inf: Inflector, owner: ModelRef, name: string, spec: PropertySpec,
                            t: PropertyType, nova: NovaDefinition, index: Option<string>, kind: PropertyKind): (p: PropertyDefinition)
    ensures p.name == name && p.owner == owner && p.propertyType == t && p.nova == nova && p.index == index && p.kind == kind
    ensures DeclaredShaped(inf, p, owner, name, spec)
  {
    PropertyDefinition(
      name, owner, t, Label(inf, name, spec.labelText), spec.required, spec.computed.GetOr(false), false,
      spec.rules.GetOr([]), ParseRequest(name, spec.request, Some(spec.required), Include),
      nova, index, false, None, kind)
  }

  /** What a declared property takes from its definition, whatever its type. */
  predicate DeclaredShaped(inf: Inflector, p: PropertyDefinition, owner: ModelRef, name: string, spec: PropertySpec) {
    && p.name == name && p.owner == owner
    && p.labelText == Label(inf, name, spec.labelText)
    && p.isRequired == spec.required
    && (p.isComputed <==> spec.computed == Some(true))
    && p.rules == spec.rules.GetOr([])
    && p.request == ParseRequest(name, spec.request, Some(spec.required), Include)
    && !p.isInherited && p.fromRelation.None? && !p.isAppendedInResource
  }

  /** `parseEnumProperty`: inline `choices` win over an `enum` class name; neither throws. The
    * index defaults to the property name. */
  function ParseEnumProperty(inf: Inflector, owner: ModelRef, name: string, spec: PropertySpec): (r: Result<PropertyDefinition, Error>)
    ensures r.Err? <==> (spec.choices.None? && spec.enumName.None?)
                        || (spec.choices.Some? && Traverse(spec.choices.value, ParseChoice).Err?)
    ensures spec.choices.None? && spec.enumName.None? ==> r == Err(UnknownEnumType(owner.name, name))
    ensures r.Ok? ==> DeclaredShaped(inf, r.value, owner, name, spec) && r.value.propertyType == Enum
    ensures r.Ok? ==> r.value.index == Some(spec.index.GetOr(name)) && r.value.nova == DeclaredNova(name, spec.nova, spec.computed)
    ensures r.Ok? && spec.choices.Some? ==> r.value.kind == EnumKind(Inline(Traverse(spec.choices.value, ParseChoice).value))
    ensures r.Ok? && spec.choices.None? ==> r.value.kind == EnumKind(External(spec.enumName.value))
  {
    var nova := DeclaredNova(name, spec.nova, spec.computed);
    var index := Some(spec.index.GetOr(name));
    match spec.choices
    case Some(choiceSpecs) =>
      var choices :- Traverse(choiceSpecs, ParseChoice);
      Ok(DeclaredProperty(inf, owner, name, spec, Enum, nova, index, EnumKind(Inline(choices))))
    case None =>
      match spec.enumName
      case Some(enumName) => Ok(DeclaredProperty(inf, owner, name, spec, Enum, nova, index, EnumKind(External(enumName))))
      case None => Err(UnknownEnumType(owner.name, name))
  }

  /** `generateProperty`: the `type` string picks the property's class. */
  function GenerateProperty(inf: Inflector, owner: ModelRef, name: string, spec: PropertySpec): Result<PropertyDefinition, Error> {
    match PropertyTypeFrom(spec.propertyType)
    case None => Err(UnknownPropertyType(owner.name, name, spec.propertyType))
    case Some(t) =>
      if t == Enum then ParseEnumProperty(inf, owner, name, spec)
      else if t == JsonObject || t == JsonArray then
        Ok(DeclaredProperty(inf, owner, name, spec, t, SpreadNova(name, spec.nova), spec.index, Json(spec.initial.GetOr(""))))
      else if Properties.IsMediaType(t) then
        Ok(DeclaredProperty(inf, owner, name, spec, t, SpreadNova(name, spec.nova), spec.index, Media(spec.asynchronousUpload.GetOr(false))))
      else
        Ok(DeclaredProperty(inf, owner, name, spec, t, DeclaredNova(name, spec.nova, spec.computed), spec.index, Plain))
  }

  /** An unknown type string is an error; an enum is parsed by `parseEnumProperty`; any other
    * known type gives a property of that type, with the JSON, media or plain shape. */
  lemma {:induction false} GeneratePropertyShape(inf: Inflector, owner: ModelRef, name: string, spec: PropertySpec)
    ensures var r := GenerateProperty(inf, owner, name, spec);
      && (PropertyTypeFrom(spec.propertyType).None? ==> r == Err(UnknownPropertyType(owner.name, name, spec.propertyType)))
      && (r.Ok? ==> DeclaredShaped(inf, r.value, owner, name, spec)
                    && PropertyTypeValue(r.value.propertyType) == spec.propertyType)
      && (r.Ok? ==> (r.value.kind.EnumKind? <==> r.value.propertyType == Enum))
      && (r.Ok? && (r.value.propertyType == JsonObject || r.value.propertyType == JsonArray) ==>
            r.value.kind == Json(spec.initial.GetOr("")) && r.value.index == spec.index && r.value.nova == SpreadNova(name, spec.nova))
      && (r.Ok? && Properties.IsMediaType(r.value.propertyType) ==>
            r.value.kind == Media(spec.asynchronousUpload.GetOr(false)) && r.value.index == spec.index && r.value.nova == SpreadNova(name, spec.nova))
      && (r.Ok? && r.value.kind == Plain ==> r.value.index == spec.index && r.value.nova == DeclaredNova(name, spec.nova, spec.computed))
      && (PropertyTypeFrom(spec.propertyType) == Some(Enum) ==> r == ParseEnumProperty(inf, owner, name, spec))
      && (PropertyTypeFrom(spec.propertyType).Some? && PropertyTypeFrom(spec.propertyType) != Some(Enum) ==> r.Ok?)
  {
    match PropertyTypeFrom(spec.propertyType)
    case None =>
    case Some(t) =>
      var r := GenerateProperty(inf, owner, name, spec);
      if t == Enum {
        assert r == ParseEnumProperty(inf, owner, name, spec);
      } else if t == JsonObject || t == JsonArray {
        assert r == Ok(DeclaredProperty(inf, owner, name, spec, t, SpreadNova(name, spec.nova), spec.index, Json(spec.initial.GetOr(""))));
      } else if Properties.IsMediaType(t) {
        assert r == Ok(DeclaredProperty(inf, owner, name, spec, t, SpreadNova(name, spec.nova), spec.index, Media(spec.asynchronousUpload.GetOr(false))));
      } else {
        assert r == Ok(DeclaredProperty(inf, owner, name, spec, t, DeclaredNova(name, spec.nova, spec.computed), spec.index, Plain));
      }
  }

  /** `generateProperty` for each `(name, definition)` entry of `properties`. */
  function PropertyParser(inf: Inflector, owner: ModelRef): ((string, PropertySpec)) -> Result<PropertyDefinition, Error> {
    (entry: (string, PropertySpec)) => GenerateProperty(inf, owner, entry.0, entry.1)
  }

  /** The property list a model is constructed with: the defaults, then the declared ones in
    * file order; the first declared property that fails to parse aborts. */
  function InitialProperties(inf: Inflector, owner: ModelRef, specs: seq<(string, PropertySpec)>): (r: Result<seq<PropertyDefinition>, Error>)
    ensures r.Ok? <==> forall i :: 0 <= i < |specs| ==> GenerateProperty(inf, owner, specs[i].0, specs[i].1).Ok?
    ensures r.Ok? ==> |r.value| == 4 + |specs| && r.value[..4] == DefaultProperties(owner)
  {
    var declared :- Traverse(specs, PropertyParser(inf, owner));
    var defaults := DefaultProperties(owner);
    assert |defaults| == 4 && (defaults + declared)[..4] == defaults;
    Ok(defaults + declared)
  }

  /** After the defaults come the declared properties, each parsed from its entry, in order. */
  lemma {:induction false} InitialPropertiesDeclared(inf: Inflector, owner: ModelRef, specs: seq<(string, PropertySpec)>)
    requires InitialProperties(inf, owner, specs).Ok?
    ensures forall i :: 0 <= i < |specs| ==>
      InitialProperties(inf, owner, specs).value[4 + i] == GenerateProperty(inf, owner, specs[i].0, specs[i].1).value
  {
    var declared := Traverse(specs, PropertyParser(inf, owner)).value;
    var defaults := DefaultProperties(owner);
    var ps := InitialProperties(inf, owner, specs).value;
    assert ps == defaults + declared;
    forall i | 0 <= i < |specs|
      ensures ps[4 + i] == GenerateProperty(inf, owner, specs[i].0, specs[i].1).value
    {
      assert ps[4 + i] == declared[i];
    }
  }

  /** The defaults are the only inherited properties a model starts with, so `order` keeps
    * them first. */
  lemma {:induction false} InitialInheritedAreDefaults(inf: Inflector, owner: ModelRef, specs: seq<(string, PropertySpec)>)
    requires InitialProperties(inf, owner, specs).Ok?
    ensures forall i :: 4 <= i < |InitialProperties(inf, owner, specs).value| ==> !InitialProperties(inf, owner, specs).value[i].isInherited
  {
    var ps := InitialProperties(inf, owner, specs).value;
    InitialPropertiesDeclared(inf, owner, specs);
    forall i | 4 <= i < |ps| ensures !ps[i].isInherited {
      GeneratePropertyShape(inf, owner, specs[i - 4].0, specs[i - 4].1);
      assert ps[i] == GenerateProperty(inf, owner, specs[i - 4].0, specs[i - 4].1).value;
    }
  }

  // ---- mixins ----

  /** One entry of `mixins`: an unknown name throws; GEOLOCATION carries the address flag. */
  function ParseMixin(m: MixinSpec): (r: Result<MixinDefinition, Error>)
    ensures r.Err? <==> MixinTypeFrom(m.name).None?
    ensures r.Err? ==> r.error == UnknownMixinType(m.name)
    ensures r.Ok? ==> r.value.name == m.name && MixinTypeValue(r.value.mixinType) == m.name
    ensures r.Ok? ==> (r.value.GeolocationMixinDefinition? <==> r.value.mixinType == GeolocationMixin)
    ensures r.Ok? && r.value.GeolocationMixinDefinition? ==> r.value.shouldIncludeAddress == m.address.GetOr(false)
  {
    match MixinTypeFrom(m.name)
    case None => Err(UnknownMixinType(m.name))
    case Some(t) =>
      if t == GeolocationMixin then Ok(GeolocationMixinDefinition(m.name, t, m.address.GetOr(false)))
      else Ok(PlainMixin(m.name, t))
  }

  /** `parseMixins`. */
  function ParseMixins(ms: seq<MixinSpec>): (r: Result<seq<MixinDefinition>, Error>)
    ensures r.Ok? <==> forall i :: 0 <= i < |ms| ==> MixinTypeFrom(ms[i].name).Some?
    ensures r.Ok? ==> |r.value| == |ms| && forall i :: 0 <= i < |ms| ==> r.value[i] == ParseMixin(ms[i]).value
  {
    Traverse(ms, ParseMixin)
  }

  /** Every mixin `parseMixins` builds is well-typed for `addMixins`: a GEOLOCATION mixin is
    * always a `GeolocationMixinDefinition`. */
  lemma {:induction false} ParsedMixinsTyped(ms: seq<MixinSpec>)
    requires ParseMixins(ms).Ok?
    ensures forall m :: m in ParseMixins(ms).value ==> (m.mixinType == GeolocationMixin ==> m.GeolocationMixinDefinition?)
  {
    var r := ParseMixins(ms).value;
    forall m | m in r ensures m.mixinType == GeolocationMixin ==> m.GeolocationMixinDefinition? {
      var i :| 0 <= i < |r| && r[i] == m;
      assert m == ParseMixin(ms[i]).value;
    }
  }

  // ---- relations ----

  /** `generateRelationPropertyName`. */
  function GenerateRelationPropertyName(inf: Inflector, relationName: string, t: RelationType, modelName: string): (r: string)
    ensures t != HasMany ==> r == relationName + "_id"
    ensures t == HasMany ==> r == inf.snake(modelName) + "_id"
  {
    match t
    case BelongsTo => relationName + "_id"
    case HasMany => inf.snake(modelName) + "_id"
    case Polymorphic => relationName + "_id"
  }

  /** The admin definition of a declared relation: shown everywhere but the update form unless
    * the file says otherwise. */
  function RelationNova(name: string, spec: NovaSpec): (n: NovaDefinition)
    ensures n.name == name && n.novaType.None? && n.help == spec.help
    ensures n.showOnIndex <==> spec.showOnIndex != Some(false)
    ensures n.showOnDetail <==> spec.showOnDetail != Some(false)
    ensures n.showWhenCreating <==> spec.showWhenCreating != Some(false)
    ensures n.showWhenUpdating <==> spec.showWhenUpdating == Some(true)
  {
    NovaDefinition(
      name, None, spec.help,
      spec.showOnIndex.GetOr(true), spec.showOnDetail.GetOr(true),
      spec.showWhenCreating.GetOr(true), spec.showWhenUpdating.GetOr(false))
  }

  /** `$this->allModel[$name] ?? throw`: the referenced model, or an error naming both. */
  function LookupModel(refs: map<string, ModelRef>, owner: string, name: string): (r: Result<ModelRef, Error>)
    ensures r.Ok? <==> name in refs
    ensures r.Ok? ==> r.value == refs[name]
    ensures r.Err? ==> r.error == ModelDoesNotExist(owner, name)
  {
    if name in refs then Ok(refs[name]) else Err(ModelDoesNotExist(owner, name))
  }

  function ModelLookup(refs: map<string, ModelRef>, owner: string): string -> Result<ModelRef, Error> {
    (name: string) => LookupModel(refs, owner, name)
  }

  /** `collect($with)`: a single name is a list of one. */
  function WithNames(w: WithSpec): seq<string> {
    match w
    case One(n) => [n]
    case Many(ns) => ns
  }

  /** Every model a relation points at is one of the registry's models. */
  predicate CounterpartsIn(r: RelationDefinition, refs: map<string, ModelRef>) {
    match r.counterpart
    case Single(m) => m in refs.Values
    case Multiple(ms) => forall m :: m in ms ==> m in refs.Values
  }

  /** The counterpart of a declared relation: one registered model for BELONGS_TO and
    * HAS_MANY, each listed one in order for POLYMORPHIC. */
  function ResolveCounterpart(refs: map<string, ModelRef>, owner: string, relation: string, t: RelationType, w: WithSpec): (r: Result<Counterpart, Error>)
    ensures t != Polymorphic ==> (r.Ok? <==> w.One? && w.name in refs)
    ensures t != Polymorphic && w.Many? ==> r == Err(IllegalWithOffset(owner, relation))
    ensures t != Polymorphic && w.One? && w.name !in refs ==> r == Err(ModelDoesNotExist(owner, w.name))
    ensures t != Polymorphic && r.Ok? ==> r.value == Single(refs[w.name])
    ensures t == Polymorphic ==> (r.Ok? <==> forall n :: n in WithNames(w) ==> n in refs)
    ensures t == Polymorphic && r.Ok? ==>
      (r.value.Multiple? && |r.value.models| == |WithNames(w)|
       && forall i :: 0 <= i < |WithNames(w)| ==> r.value.models[i] == refs[WithNames(w)[i]])
    ensures t == Polymorphic && r.Err? ==> exists n :: n in WithNames(w) && n !in refs && r.error == ModelDoesNotExist(owner, n)
  {
    if t == Polymorphic then
      var names := WithNames(w);
      match Traverse(names, ModelLookup(refs, owner))
      case Err(e) => Err(e)
      case Ok(models) =>
        assert forall n :: n in names ==> n in refs by {
          forall n | n in names ensures n in refs {
            var i :| 0 <= i < |names| && names[i] == n;
            assert ModelLookup(refs, owner)(names[i]).Ok?;
          }
        }
        Ok(Multiple(models))
    else
      match w
      case Many(_) => Err(IllegalWithOffset(owner, relation))
      case One(n) => if n in refs then Ok(Single(refs[n])) else Err(ModelDoesNotExist(owner, n))
  }

  /** `generateRelation`: an unknown type, a list where one model is expected, or a model
    * missing from the registry throws; otherwise every attribute is the file's or its default. */
  function GenerateRelation(inf: Inflector, refs: map<string, ModelRef>, owner: ModelRef, name: string, spec: RelationSpec): (r: Result<RelationDefinition, Error>)
    ensures RelationTypeFrom(spec.relationType).None? ==> r == Err(UnknownRelationType(owner.name, name, spec.relationType))
    ensures RelationTypeFrom(spec.relationType).Some? ==>
      (r.Ok? <==> ResolveCounterpart(refs, owner.name, name, RelationTypeFrom(spec.relationType).value, spec.with).Ok?)
    ensures RelationTypeFrom(spec.relationType).Some? && r.Err? ==>
      r.error == ResolveCounterpart(refs, owner.name, name, RelationTypeFrom(spec.relationType).value, spec.with).error
    ensures r.Ok? ==> RelationShaped(inf, refs, r.value, owner, name, spec)
  {
    match RelationTypeFrom(spec.relationType)
    case None => Err(UnknownRelationType(owner.name, name, spec.relationType))
    case Some(t) =>
      match ResolveCounterpart(refs, owner.name, name, t, spec.with)
      case Err(e) => Err(e)
      case Ok(counterpart) =>
        Ok(RelationDefinition(
          name, spec.foreignKey.GetOr(GenerateRelationPropertyName(inf, name, t, owner.name)), owner, t,
          spec.createCounterRelation.GetOr(true), spec.eager.GetOr(false), spec.event.GetOr(false),
          spec.required.GetOr(false), spec.computed.GetOr(false), spec.index.GetOr(name),
          ParseRequest(name, spec.request, spec.required, Exclude), RelationNova(name, spec.nova), counterpart))
  }

  /** What a declared relation takes from its definition. */
  predicate RelationShaped(inf: Inflector, refs: map<string, ModelRef>, r: RelationDefinition, owner: ModelRef, name: string, spec: RelationSpec) {
    && r.name == name && r.owner == owner
    && RelationTypeFrom(spec.relationType) == Some(r.relationType)
    && r.propertyName == spec.foreignKey.GetOr(GenerateRelationPropertyName(inf, name, r.relationType, owner.name))
    && (r.shouldCreateCounterRelation <==> spec.createCounterRelation != Some(false))
    && (r.shouldEagerLoad <==> spec.eager == Some(true))
    && (r.isEvent <==> spec.event == Some(true))
    && (r.isRequired <==> spec.required == Some(true))
    && (r.isComputed <==> spec.computed == Some(true))
    && r.index == spec.index.GetOr(name)
    && r.request == ParseRequest(name, spec.request, spec.required, Exclude)
    && r.nova == RelationNova(name, spec.nova)
    && (r.relationType == Polymorphic <==> r.counterpart.Multiple?)
    && CounterpartsIn(r, refs)
  }

  /** Without a `foreignKey`, a BELONGS_TO or POLYMORPHIC relation's property name is the name
    * of the `_id` foreign-key property it synthesizes. */
  lemma {:induction false} PropertyNameIsForeignKey(inf: Inflector, r: RelationDefinition, spec: RelationSpec, refs: map<string, ModelRef>, owner: ModelRef, name: string)
    requires RelationShaped(inf, refs, r, owner, name, spec) && spec.foreignKey.None? && r.relationType != HasMany
    ensures r.propertyName == r.name + "_id"
  {
  }

  function RelationBuilder(inf: Inflector, refs: map<string, ModelRef>, owner: ModelRef): ((string, RelationSpec)) -> Result<RelationDefinition, Error> {
    (entry: (string, RelationSpec)) => GenerateRelation(inf, refs, owner, entry.0, entry.1)
  }

  /** `new RelationCollection(Arr::map($definition['relations'], generateRelation))`: every
    * declared relation in file order, or the first one's error. */
  function BuildRelations(inf: Inflector, refs: map<string, ModelRef>, owner: ModelRef, specs: seq<(string, RelationSpec)>): (r: Result<seq<RelationDefinition>, Error>)
    ensures r.Ok? <==> forall i :: 0 <= i < |specs| ==> GenerateRelation(inf, refs, owner, specs[i].0, specs[i].1).Ok?
    ensures r.Ok? ==> |r.value| == |specs| && forall i :: 0 <= i < |specs| ==>
      r.value[i] == GenerateRelation(inf, refs, owner, specs[i].0, specs[i].1).value
    ensures r.Ok? ==> forall x :: x in r.value ==> x.owner == owner && CounterpartsIn(x, refs)
    ensures r.Err? ==> exists i :: 0 <= i < |specs| && GenerateRelation(inf, refs, owner, specs[i].0, specs[i].1).Err?
                                   && r.error == GenerateRelation(inf, refs, owner, specs[i].0, specs[i].1).error
  {
    var b := RelationBuilder(inf, refs, owner);
    var r := Traverse(specs, b);
    if r.Ok? then
      assert forall x :: x in r.value ==> x.owner == owner && CounterpartsIn(x, refs) by {
        forall x | x in r.value ensures x.owner == owner && CounterpartsIn(x, refs) {
          var i :| 0 <= i < |r.value| && r.value[i] == x;
          assert x == b(specs[i]).value;
        }
      }
      r
    else
      r
  }

  /** A relation whose counterpart is not registered makes the whole list fail with an error
    * naming the owner and the first missing model. */
  lemma {:induction false} MissingCounterpartFails(inf: Inflector, refs: map<string, ModelRef>, owner: ModelRef, specs: seq<(string, RelationSpec)>, k: nat)
    requires k < |specs| && RelationTypeFrom(specs[k].1.relationType).Some?
    requires exists n :: n in WithNames(specs[k].1.with) && n !in refs
    ensures BuildRelations(inf, refs, owner, specs).Err?
  {
    var t := RelationTypeFrom(specs[k].1.relationType).value;
    assert ResolveCounterpart(refs, owner.name, specs[k].0, t, specs[k].1.with).Err?;
  }

  // ---- observer flag and header ----

  predicate IsGeolocationMixin(m: MixinDefinition) { m.mixinType == GeolocationMixin }

  /** `determineHasObserver`: the `observer` flag, an event relation or a GEOLOCATION mixin. */
  function DetermineHasObserver(observer: bool, relations: seq<RelationDefinition>, mixins: seq<MixinDefinition>): (r: bool)
    ensures r <==> observer || (exists x :: x in relations && x.isEvent) || (exists m :: m in mixins && m.mixinType == GeolocationMixin)
  {
    observer || RelationCollection.GetWithEventOrNull(relations).Some? || First(mixins, IsGeolocationMixin).Some?
  }

  /** In phase 1 a model has no relations yet, so a declared event relation does not give it
    * an observer. */
  lemma {:induction false} ObserverBeforeRelations(observer: bool, mixins: seq<MixinDefinition>)
    ensures DetermineHasObserver(observer, [], mixins) <==> observer || exists m :: m in mixins && m.mixinType == GeolocationMixin
  {
  }

  /** The header `handle` constructs a model with (:115-125): the file's table, title,
    * mixins, request and prefix, each with its default. Mixins are parsed before the prefix
    * is derived, so a bad mixin is reported first. */
  function ParseHeader(inf: Inflector, input: ModelInput): (r: Result<ModelHeader, Error>)
    ensures r.Ok? <==> ParseMixins(input.spec.mixins).Ok?
                       && (input.spec.ulidPrefix.Some? || UlidPrefix.GenerateUlidPrefix(input.name).Ok?)
    ensures ParseMixins(input.spec.mixins).Err? ==> r.Err? && r.error == ParseMixins(input.spec.mixins).error
    ensures r.Ok? ==> r.value.name == input.name && r.value.namespace == input.namespace
                      && r.value.titleAttributes == input.spec.title && r.value.original == input.spec
                      && r.value.mixins == ParseMixins(input.spec.mixins).value
                      && r.value.request == ParseRequest(input.name, input.spec.request, input.spec.required, Include)
    ensures r.Ok? ==> r.value.table == TableDefinition(
                        input.spec.table.name.GetOr(inf.plural(inf.snake(input.name))),
                        input.spec.table.unique.GetOr([]), input.spec.table.log.GetOr(true))
    ensures r.Ok? && input.spec.ulidPrefix.Some? ==> r.value.ulidPrefix == input.spec.ulidPrefix.value
    ensures r.Ok? && input.spec.ulidPrefix.None? ==> r.value.ulidPrefix == UlidPrefix.GenerateUlidPrefix(input.name).value
  {
    var spec := input.spec;
    var mixins :- ParseMixins(spec.mixins);
    var ulidPrefix :- if spec.ulidPrefix.Some? then Ok(spec.ulidPrefix.value) else UlidPrefix.GenerateUlidPrefix(input.name);
    Ok(ModelHeader(
      input.name, input.namespace,
      TableDefinition(spec.table.name.GetOr(inf.plural(inf.snake(input.name))), spec.table.unique.GetOr([]), spec.table.log.GetOr(true)),
      spec.title, mixins, ParseRequest(input.name, spec.request, spec.required, Include), ulidPrefix, spec))
  }
}
