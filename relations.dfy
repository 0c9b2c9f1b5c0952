/** src/Generator/Definition/RelationDefinition.php, RelationMonomorphicDefinition.php and
  * RelationPolymorphicDefinition.php: the foreign-key properties a relation implies, the
  * inverse relation it may synthesize, and its class-name and doc-type strings. */
module Relations {
  import opened Wrappers
  import opened Text
  import opened Seqs
  import opened Enums
  import opened Errors
  import opened Collaborators
  import opened Definitions

  /** One synthesized foreign-key property `<relation><suffix>`. */
  function ForeignKeyProperty(inf: Inflector, r: RelationDefinition, suffix: string, t: PropertyType, labelSuffix: string): (p: PropertyDefinition)
    ensures p.name == r.name + suffix && p.propertyType == t && p.owner == r.owner
    ensures ForeignKeyShaped(p, r)
  {
    var name := r.name + suffix;
    PropertyDefinition(
      name, r.owner, t, inf.title(r.name) + labelSuffix,
      r.isRequired, false, false, [],
      RequestDefinition(name, r.isRequired, Exclude, r.request.createStatus, r.request.updateStatus),
      NovaDefinition(name, None, None, false, true, true, true),
      Some(r.index), false, Some(r), Plain)
  }

  /** What every synthesized foreign-key property of `r` has in common. */
  predicate ForeignKeyShaped(p: PropertyDefinition, r: RelationDefinition) {
    && p.isRequired == r.isRequired
    && p.request.name == p.name
    && p.request.isRequired == r.isRequired
    && p.request.getStatus == Exclude
    && p.request.createStatus == r.request.createStatus
    && p.request.updateStatus == r.request.updateStatus
    && p.index == Some(r.index)
    && !p.isInherited && !p.isComputed && !p.isAppendedInResource
    && p.fromRelation == Some(r)
    && p.rules == []
    && !p.nova.showOnIndex
  }

  /** `generateAllForeignKeyProperty`: BELONGS_TO gives `<name>_id`; POLYMORPHIC gives
    * `<name>_type` then `<name>_id`; HAS_MANY gives none. The names come from the relation
    * name, never from its `propertyName`. */
  function GenerateAllForeignKeyProperty(inf: Inflector, r: RelationDefinition): (ps: seq<PropertyDefinition>)
    ensures r.relationType == BelongsTo ==> |ps| == 1 && ps[0].name == r.name + "_id" && ps[0].propertyType == Id
    ensures r.relationType == HasMany ==> ps == []
    ensures r.relationType == Polymorphic ==>
      && |ps| == 2
      && ps[0].name == r.name + "_type" && ps[0].propertyType == String
      && ps[1].name == r.name + "_id" && ps[1].propertyType == Id
    ensures forall p :: p in ps ==> ForeignKeyShaped(p, r) && p.owner == r.owner
  {
    match r.relationType
    case BelongsTo => [ForeignKeyProperty(inf, r, "_id", Id, " ID")]
    case HasMany => []
    case Polymorphic => [ForeignKeyProperty(inf, r, "_type", String, " Type"), ForeignKeyProperty(inf, r, "_id", Id, " ID")]
  }

  /** `generateCounterRelationOrNull`: with the counter flag set, a BELONGS_TO relation yields
    * the inverse HAS_MANY relation on its counterpart; every other relation yields none. */
  function GenerateCounterRelationOrNull(inf: Inflector, r: RelationDefinition): (c: Result<Option<RelationDefinition>, Error>)
    ensures c.Err? <==> r.shouldCreateCounterRelation && r.relationType == BelongsTo && r.counterpart.Multiple?
    ensures c.Ok? ==> (c.value.Some? <==> r.shouldCreateCounterRelation && r.relationType == BelongsTo)
    ensures c.Ok? && c.value.Some? ==> CounterRelationOf(inf, c.value.value, r)
  {
    if !r.shouldCreateCounterRelation then Ok(None)
    else
      match r.relationType
      case BelongsTo =>
        (match r.counterpart
         case Single(counter) =>
           var name := inf.plural(inf.snake(RemoveAll(r.owner.name, counter.name)));
           Ok(Some(RelationDefinition(
             name, inf.snake(r.name) + "_id", counter, HasMany,
             false, false, false, true, false, name,
             RequestDefinition(name, false, Exclude, Exclude, Exclude),
             NovaDefinition(name, None, None, false, false, false, false),
             Single(r.owner))))
         case Multiple(_) => Err(NoSingleCounterpart(r.owner.name, r.name))
        )
      case HasMany => Ok(None)
      case Polymorphic => Ok(None)
  }

  /** `c` is the inverse of the BELONGS_TO relation `r`: it lives on `r`'s counterpart, points
    * back at `r`'s owner, is named after the owner with the counterpart's name removed, and is
    * a required HAS_MANY that is hidden everywhere and synthesizes nothing further. */
  predicate CounterRelationOf(inf: Inflector, c: RelationDefinition, r: RelationDefinition) {
    && r.counterpart.Single?
    && c.owner == r.counterpart.model
    && c.counterpart == Single(r.owner)
    && c.name == inf.plural(inf.snake(RemoveAll(r.owner.name, r.counterpart.model.name)))
    && c.propertyName == inf.snake(r.name) + "_id"
    && c.relationType == HasMany
    && !c.shouldCreateCounterRelation && !c.shouldEagerLoad && !c.isEvent
    && c.isRequired && !c.isComputed
    && c.index == c.name
    && c.request == RequestDefinition(c.name, false, Exclude, Exclude, Exclude)
    && !c.nova.showOnIndex && !c.nova.showOnDetail && !c.nova.showWhenCreating && !c.nova.showWhenUpdating
  }

  /** An inverse relation never yields an inverse of its own. */
  lemma {:induction false} CounterRelationIsFinal(inf: Inflector, r: RelationDefinition)
    requires GenerateCounterRelationOrNull(inf, r).Ok? && GenerateCounterRelationOrNull(inf, r).value.Some?
    ensures GenerateCounterRelationOrNull(inf, GenerateCounterRelationOrNull(inf, r).value.value) == Ok(None)
    ensures GenerateAllForeignKeyProperty(inf, GenerateCounterRelationOrNull(inf, r).value.value) == []
  {
  }

  /** `toNovaType`. */
  function ToNovaType(t: RelationType): string {
    match t
    case BelongsTo => "Laravel\\Nova\\Fields\\BelongsTo"
    case HasMany => "Laravel\\Nova\\Fields\\HasMany"
    case Polymorphic => "Laravel\\Nova\\Fields\\MorphTo"
  }

  /** `toRelationType`. */
  function ToRelationType(t: RelationType): string {
    match t
    case BelongsTo => "Illuminate\\Database\\Eloquent\\Relations\\BelongsTo"
    case HasMany => "Illuminate\\Database\\Eloquent\\Relations\\HasMany"
    case Polymorphic => "Illuminate\\Database\\Eloquent\\Relations\\MorphTo"
  }

  /** Each tag map names a different class for each relation type. */
  lemma {:induction false} TagMapsInjective(t: RelationType, u: RelationType)
    ensures ToNovaType(t) == ToNovaType(u) ==> t == u
    ensures ToRelationType(t) == ToRelationType(u) ==> t == u
  {
    if t != u {
      var a, b := ToNovaType(t), ToNovaType(u);
      assert a[20] != b[20] || |a| != |b|;
      var c, d := ToRelationType(t), ToRelationType(u);
      assert c[40] != d[40] || |c| != |d|;
    }
  }

  /** `ModelDefinition::getClassName` of a referenced model. */
  function ClassName(m: ModelRef): string { m.name + "Model" }

  /** `ModelDefinition::getFullClassName` of a referenced model. */
  function FullClassName(m: ModelRef): string { m.namespace + "\\Model\\" + m.name + "Model" }

  /** `RelationMonomorphicDefinition::toPhpDocType`. */
  function MonoPhpDocType(r: RelationDefinition): (s: Result<string, Error>)
    requires r.counterpart.Single?
    ensures r.relationType == BelongsTo && r.isRequired ==> s == Ok(r.counterpart.model.name + "Model")
    ensures r.relationType == BelongsTo && !r.isRequired ==> s == Ok(r.counterpart.model.name + "Model|null")
    ensures r.relationType == HasMany ==> s == Ok("Collection<int, " + r.counterpart.model.name + "Model>")
    ensures s.Err? <==> r.relationType == Polymorphic
  {
    match r.relationType
    case BelongsTo =>
      var name := ClassName(r.counterpart.model);
      assert name + "|null" == r.counterpart.model.name + "Model|null";
      if r.isRequired then Ok(name) else Ok(name + "|null")
    case HasMany => Ok("Collection<int, " + r.counterpart.model.name + "Model>")
    case Polymorphic => Err(UnsupportedRelationType(RelationTypeValue(r.relationType)))
  }

  /** The alternatives of a polymorphic doc type: one per counterpart, then `null` when
    * the relation is optional. */
  function Alternatives(models: seq<ModelRef>, name: ModelRef -> string, required: bool): (parts: seq<string>)
    ensures |parts| == |models| + (if required then 0 else 1)
    ensures forall i :: 0 <= i < |models| ==> parts[i] == name(models[i])
    ensures !required ==> parts[|models|] == "null"
  {
    Map(models, name) + (if required then [] else ["null"])
  }

  /** `RelationPolymorphicDefinition::toPhpDocType`: the counterparts' class names in order, then
    * `null` iff optional, joined by `|`. */
  function PolyPhpDocType(r: RelationDefinition): (s: string)
    requires r.counterpart.Multiple?
    ensures s == Join(Alternatives(r.counterpart.models, ClassName, r.isRequired), "|")
  {
    Join(Map(r.counterpart.models, ClassName) + (if r.isRequired then [] else ["null"]), "|")
  }

  /** `RelationPolymorphicDefinition::toParameterType`: the same, with full class names. */
  function PolyParameterType(r: RelationDefinition): (s: string)
    requires r.counterpart.Multiple?
    ensures s == Join(Alternatives(r.counterpart.models, FullClassName, r.isRequired), "|")
  {
    Join(Map(r.counterpart.models, FullClassName) + (if r.isRequired then [] else ["null"]), "|")
  }

  /** Splitting the doc type at `|` gives back one class name per counterpart, plus `null`
    * when optional, so the part count is the counterpart count, plus one when optional. */
  lemma {:induction false} PolyPhpDocTypeParts(r: RelationDefinition)
    requires r.counterpart.Multiple?
    requires |r.counterpart.models| > 0 || !r.isRequired
    requires forall m :: m in r.counterpart.models ==> '|' !in m.name
    ensures Split(PolyPhpDocType(r), '|') == Alternatives(r.counterpart.models, ClassName, r.isRequired)
    ensures |Split(PolyPhpDocType(r), '|')| == |r.counterpart.models| + (if r.isRequired then 0 else 1)
  {
    var parts := Alternatives(r.counterpart.models, ClassName, r.isRequired);
    forall i | 0 <= i < |parts| ensures '|' !in parts[i] {
      if i < |r.counterpart.models| {
        assert r.counterpart.models[i] in r.counterpart.models;
      }
    }
    SplitJoin(parts, '|');
  }
}
