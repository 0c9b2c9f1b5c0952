/** src/Generator/Definition/ModelDefinition.php: a model object whose properties and
  * relations are updated in place, the list operations those updates perform, and the
  * class names derived from the model's name and namespace. */
module Models {
  import opened Wrappers
  import opened Text
  import opened Seqs
  import opened Keyed
  import opened Errors
  import opened Specs
  import opened Definitions
  import opened PropertyCollection
  import Relations

  /** A model's relations are a PHP array keyed by relation name. */
  function RelationName(r: RelationDefinition): string { r.name }

  /** The property list after `addPropertyAfter(after, p)`: `p` right after the first property
    * named `after`, or at the end when there is none. */
  function InsertAfter(ps: seq<PropertyDefinition>, after: string, p: PropertyDefinition): (r: seq<PropertyDefinition>)
    ensures |r| == |ps| + 1
    ensures (forall q :: q in ps ==> q.name != after) ==> r == ps + [p]
  {
    match FindIndex(ps, NamedAs(after))
    case None =>
      assert forall k :: 0 <= k < |ps| ==> ps[k] in ps;
      ps + [p]
    case Some(i) => ps[..i + 1] + [p] + ps[i + 1..]
  }

  /** With an anchor, `p` goes right after its first occurrence. */
  lemma {:induction false} InsertAfterAt(ps: seq<PropertyDefinition>, after: string, p: PropertyDefinition, i: nat)
    requires i < |ps| && ps[i].name == after && forall j :: 0 <= j < i ==> ps[j].name != after
    ensures InsertAfter(ps, after, p) == ps[..i + 1] + [p] + ps[i + 1..]
  {
    assert NamedAs(after)(ps[i]);
    match FindIndex(ps, NamedAs(after))
    case None => assert false;
    case Some(k) => assert k == i;
  }

  /** Splicing in `p` moves nothing else: `p` sits right after the anchor (or last), and
    * taking that slot out again gives back the old properties in their old order. */
  lemma {:induction false} InsertAfterKeepsOrder(ps: seq<PropertyDefinition>, after: string, p: PropertyDefinition, i: nat)
    requires i < |ps| && ps[i].name == after && forall j :: 0 <= j < i ==> ps[j].name != after
    ensures InsertAfter(ps, after, p)[i] == ps[i] && InsertAfter(ps, after, p)[i + 1] == p
    ensures InsertAfter(ps, after, p)[..i + 1] + InsertAfter(ps, after, p)[i + 2..] == ps
  {
    var r := InsertAfter(ps, after, p);
    InsertAfterAt(ps, after, p, i);
    assert r[..i + 1] == ps[..i + 1];
    assert r[i + 2..] == ps[i + 1..];
  }

  /** The relation list after `addRelationIfNotExists(r)`. */
  function PutIfAbsent(rs: seq<RelationDefinition>, r: RelationDefinition): (out: seq<RelationDefinition>)
    ensures HasKey(rs, RelationName, r.name) ==> out == rs
    ensures !HasKey(rs, RelationName, r.name) ==> out == rs + [r]
    ensures HasKey(out, RelationName, r.name)
  {
    if HasKey(rs, RelationName, r.name) then rs
    else
      assert RelationName((rs + [r])[|rs|]) == r.name;
      rs + [r]
  }

  /** `addRelationIfNotExists` applied twice is applied once. */
  lemma {:induction false} PutIfAbsentIdempotent(rs: seq<RelationDefinition>, r: RelationDefinition)
    ensures PutIfAbsent(PutIfAbsent(rs, r), r) == PutIfAbsent(rs, r)
  {
  }

  /** `addRelationIfNotExists` changes no entry that is there and adds `r` only under a free name. */
  lemma {:induction false} LookupPutIfAbsent(rs: seq<RelationDefinition>, r: RelationDefinition, k: string)
    requires UniqueKeys(rs, RelationName)
    ensures Lookup(PutIfAbsent(rs, r), RelationName, k) ==
            if k == r.name && !HasKey(rs, RelationName, k) then Some(r) else Lookup(rs, RelationName, k)
  {
    if !HasKey(rs, RelationName, r.name) {
      LookupPut(rs, RelationName, r, k);
    }
  }

  /** The relation list after `addRelation(r)` on model `model`: an error when the name is taken. */
  function AddedRelation(model: string, rs: seq<RelationDefinition>, r: RelationDefinition): (out: Result<seq<RelationDefinition>, Error>)
    ensures out.Err? <==> HasKey(rs, RelationName, r.name)
    ensures out.Err? ==> out.error == RelationAlreadyExists(model, r.name)
    ensures out.Ok? ==> out.value == rs + [r]
  {
    if HasKey(rs, RelationName, r.name) then Err(RelationAlreadyExists(model, r.name)) else Ok(rs + [r])
  }

  /** `addRelationWithOverride(r)` leaves `relations[r.name]` equal to `r`, keeps every other
    * entry, and keeps a replaced entry in its slot. */
  lemma {:induction false} OverrideLookup(rs: seq<RelationDefinition>, r: RelationDefinition, k: string)
    requires UniqueKeys(rs, RelationName)
    ensures Lookup(Put(rs, RelationName, r), RelationName, k) == if k == r.name then Some(r) else Lookup(rs, RelationName, k)
    ensures HasKey(rs, RelationName, r.name) ==> Put(rs, RelationName, r) == rs[Slot(rs, RelationName, r.name).value := r]
  {
    LookupPut(rs, RelationName, r, k);
  }

  /** A model. Everything but the observer flag, the properties and the relations is fixed at
    * construction. */
  class ModelDefinition {
    const name: string
    const namespace: string
    const table: TableDefinition
    var hasObserver: bool
    const titleAttributes: seq<string>
    const mixins: seq<MixinDefinition>
    const request: RequestDefinition
    const ulidPrefix: string
    const original: ModelSpec
    var properties: seq<PropertyDefinition>
    var relations: seq<RelationDefinition>

    /** Relation names are unique: `relations` is keyed by them. */
    predicate Valid()
      reads this
    {
      UniqueKeys(relations, RelationName)
    }

    function Header(): ModelHeader {
      ModelHeader(name, namespace, table, titleAttributes, mixins, request, ulidPrefix, original)
    }

    function State(): ModelState
      reads this
    {
      ModelState(hasObserver, properties, relations)
    }

    function Ref(): ModelRef {
      Header().Ref()
    }

    /** The constructor: no relations yet. The properties are set with `SetProperties`. */
    constructor(name: string, namespace: string, table: TableDefinition, hasObserver: bool,
                titleAttributes: seq<string>, mixins: seq<MixinDefinition>, request: RequestDefinition,
                ulidPrefix: string, original: ModelSpec)
      ensures Header() == ModelHeader(name, namespace, table, titleAttributes, mixins, request, ulidPrefix, original)
      ensures State() == ModelState(hasObserver, [], [])
      ensures Valid()
    {
      this.name := name;
      this.namespace := namespace;
      this.table := table;
      this.hasObserver := hasObserver;
      this.titleAttributes := titleAttributes;
      this.mixins := mixins;
      this.request := request;
      this.ulidPrefix := ulidPrefix;
      this.original := original;
      this.properties := [];
      this.relations := [];
    }

    method SetProperties(ps: seq<PropertyDefinition>)
      requires Valid()
      modifies this
      ensures Valid()
      ensures State() == old(State()).(properties := ps)
    {
      properties := ps;
    }

    method SetHasObserver(b: bool)
      requires Valid()
      modifies this
      ensures Valid()
      ensures State() == old(State()).(hasObserver := b)
    {
      hasObserver := b;
    }

    /** `addProperty`: appends; every existing property keeps its position. */
    method AddProperty(p: PropertyDefinition)
      requires Valid()
      modifies this
      ensures Valid()
      ensures State() == old(State()).(properties := old(properties) + [p])
    {
      properties := properties + [p];
    }

    /** `addPropertyAfter`. */
    method AddPropertyAfter(after: string, p: PropertyDefinition)
      requires Valid()
      modifies this
      ensures Valid()
      ensures State() == old(State()).(properties := InsertAfter(old(properties), after, p))
    {
      var i := FindIndex(properties, NamedAs(after));
      if i.None? {
        properties := properties + [p];
      } else {
        properties := properties[..i.value + 1] + [p] + properties[i.value + 1..];
      }
    }

    /** `addRelationWithOverride`: `relations[r.name] = r`. */
    method AddRelationWithOverride(r: RelationDefinition)
      requires Valid()
      modifies this
      ensures Valid()
      ensures State() == old(State()).(relations := Put(old(relations), RelationName, r))
    {
      PutUnique(relations, RelationName, r);
      relations := Put(relations, RelationName, r);
    }

    /** `addRelation`: throws when the name is taken, leaving the relations as they were. */
    method AddRelation(r: RelationDefinition) returns (o: Outcome<Error>)
      requires Valid()
      modifies this
      ensures Valid()
      ensures AddedRelation(name, old(relations), r).Err? ==> o == Fail(AddedRelation(name, old(relations), r).error) && State() == old(State())
      ensures AddedRelation(name, old(relations), r).Ok? ==> o == Pass && State() == old(State()).(relations := AddedRelation(name, old(relations), r).value)
    {
      if HasKey(relations, RelationName, r.name) {
        o := Fail(RelationAlreadyExists(name, r.name));
      } else {
        relations := relations + [r];
        o := Pass;
      }
    }

    /** `addRelationIfNotExists`. */
    method AddRelationIfNotExists(r: RelationDefinition)
      requires Valid()
      modifies this
      ensures Valid()
      ensures State() == old(State()).(relations := PutIfAbsent(old(relations), r))
    {
      if !HasKey(relations, RelationName, r.name) {
        relations := relations + [r];
      }
    }

    /** `getClassName`. */
    function GetClassName(): string {
      Relations.ClassName(Ref())
    }

    /** `getFullClassName`. */
    function GetFullClassName(): string {
      Relations.FullClassName(Ref())
    }

    /** `getFullBaseClassName`. */
    function GetFullBaseClassName(): string {
      namespace + "\\Model\\Generated\\" + name + "ModelBase"
    }

    /** The generated base class and the hand-written class sit under the same `Model`
      * namespace and share the class name; the base class adds `Base`. */
    lemma {:induction false} ClassNamesAgree()
      ensures GetFullClassName() == namespace + "\\Model\\" + GetClassName()
      ensures GetFullBaseClassName() == namespace + "\\Model\\Generated\\" + GetClassName() + "Base"
      ensures GetClassName() == name + "Model"
    {
    }

    /** The namespace split at `\`, with the `kind` segment and `name + kind` appended. */
    function SiblingClassName(kind: string, className: string): (r: string)
      ensures r == namespace + "\\" + kind + "\\" + className
    {
      AppendSegments(namespace, kind, className);
      Join(Split(namespace, '\\') + [kind, className], "\\")
    }

    /** `getNovaFullClassName`, `getObserverFullClassName`, `getResourceFullClassName` and
      * `getQueryFullClassName`: the generated class of `kind` (`Nova`, `Observer`, `Resource`
      * or `Query`) sits in the `kind` namespace next to `Model` and is named after the model. */
    function KindFullClassName(kind: string): (r: string)
      ensures r == namespace + "\\" + kind + "\\" + name + kind
    {
      SiblingClassName(kind, name + kind)
    }

    /** `getEventClassName`. */
    function GetEventClassName(): string {
      name + "Event"
    }

    /** `getEventFullClassName`. */
    function GetEventFullClassName(): (r: string)
      ensures r == namespace + "\\Event\\" + GetEventClassName()
    {
      SiblingClassName("Event", GetEventClassName())
    }
  }
}
