/** src/Generator/Definition/PropertyCollection.php: the filters, lookups, index grouping
  * and the three-rank ordering over a model's properties (in collection order). */
module PropertyCollection {
  import opened Wrappers
  import opened Text
  import opened Seqs
  import opened Keyed
  import opened Sorting
  import opened Enums
  import opened Definitions
  import opened Properties

  predicate Inherited(p: PropertyDefinition) { p.isInherited }
  predicate NotInherited(p: PropertyDefinition) { !p.isInherited }
  predicate FromRelation(p: PropertyDefinition) { p.fromRelation.Some? }
  predicate NotFromRelation(p: PropertyDefinition) { p.fromRelation.None? }
  predicate NotComputed(p: PropertyDefinition) { !p.isComputed }
  predicate NotAppended(p: PropertyDefinition) { !p.isAppendedInResource }
  predicate Appended(p: PropertyDefinition) { p.isAppendedInResource }
  predicate NotMedia(p: PropertyDefinition) { !IsMedia(p) }
  predicate Required(p: PropertyDefinition) { p.isRequired }
  predicate NotRequired(p: PropertyDefinition) { !p.isRequired }
  predicate Indexed(p: PropertyDefinition) { p.index.Some? }
  predicate IsEnumProperty(p: PropertyDefinition) { p.kind.EnumKind? }
  predicate IsJson(p: PropertyDefinition) { p.propertyType == JsonObject || p.propertyType == JsonArray }
  predicate IsIdentifier(p: PropertyDefinition) { p.name == "id" || p.name == "ulid" }

  function GetInherited(ps: seq<PropertyDefinition>): seq<PropertyDefinition> { Filter(ps, Inherited) }
  function GetNonInherited(ps: seq<PropertyDefinition>): seq<PropertyDefinition> { Filter(ps, NotInherited) }
  function GetRelation(ps: seq<PropertyDefinition>): seq<PropertyDefinition> { Filter(ps, FromRelation) }
  function GetNonRelation(ps: seq<PropertyDefinition>): seq<PropertyDefinition> { Filter(ps, NotFromRelation) }
  function GetNonComputed(ps: seq<PropertyDefinition>): seq<PropertyDefinition> { Filter(ps, NotComputed) }
  function GetNonAppendedInResource(ps: seq<PropertyDefinition>): seq<PropertyDefinition> { Filter(ps, NotAppended) }
  function GetAllAppendedInResource(ps: seq<PropertyDefinition>): seq<PropertyDefinition> { Filter(ps, Appended) }
  function GetMedia(ps: seq<PropertyDefinition>): seq<PropertyDefinition> { Filter(ps, IsMedia) }
  function GetNonMedia(ps: seq<PropertyDefinition>): seq<PropertyDefinition> { Filter(ps, NotMedia) }
  function GetRequired(ps: seq<PropertyDefinition>): seq<PropertyDefinition> { Filter(ps, Required) }
  function GetNonRequired(ps: seq<PropertyDefinition>): seq<PropertyDefinition> { Filter(ps, NotRequired) }
  function GetIndexed(ps: seq<PropertyDefinition>): seq<PropertyDefinition> { Filter(ps, Indexed) }
  function GetEnums(ps: seq<PropertyDefinition>): seq<PropertyDefinition> { Filter(ps, IsEnumProperty) }
  function GetAllJson(ps: seq<PropertyDefinition>): seq<PropertyDefinition> { Filter(ps, IsJson) }
  function GetIdentifiers(ps: seq<PropertyDefinition>): seq<PropertyDefinition> { Filter(ps, IsIdentifier) }

  /** Each pair of complementary filters splits the collection: together the two parts hold
    * every property once, and each part keeps collection order (`Seqs.FilterConcat`). */
  lemma {:induction false} Partitions(ps: seq<PropertyDefinition>)
    ensures multiset(GetInherited(ps)) + multiset(GetNonInherited(ps)) == multiset(ps)
    ensures multiset(GetRelation(ps)) + multiset(GetNonRelation(ps)) == multiset(ps)
    ensures multiset(GetMedia(ps)) + multiset(GetNonMedia(ps)) == multiset(ps)
    ensures multiset(GetRequired(ps)) + multiset(GetNonRequired(ps)) == multiset(ps)
    ensures multiset(GetAllAppendedInResource(ps)) + multiset(GetNonAppendedInResource(ps)) == multiset(ps)
  {
    FilterPartition(ps, Inherited, NotInherited);
    FilterPartition(ps, FromRelation, NotFromRelation);
    FilterPartition(ps, IsMedia, NotMedia);
    FilterPartition(ps, Required, NotRequired);
    FilterPartition(ps, Appended, NotAppended);
  }

  predicate InGet(p: PropertyDefinition) { IsIncluded(p.owner.request.getStatus) && IsIncluded(p.request.getStatus) }
  predicate ModelInGet(p: PropertyDefinition) { IsIncluded(p.owner.request.getStatus) }
  predicate PropertyInGet(p: PropertyDefinition) { IsIncluded(p.request.getStatus) }

  /** `getAllInGetRequest`: the model's and the property's own get status are both included. */
  function GetAllInGetRequest(ps: seq<PropertyDefinition>): (r: seq<PropertyDefinition>)
    ensures r == Filter(ps, InGet)
    ensures forall p :: p in r <==> p in ps && IsIncluded(p.owner.request.getStatus) && IsIncluded(p.request.getStatus)
  {
    FilterFilter(ps, ModelInGet, PropertyInGet, InGet);
    Filter(Filter(ps, ModelInGet), PropertyInGet)
  }

  predicate ModelGetIncluded(p: PropertyDefinition) { p.owner.request.getStatus == Include }
  predicate PropertyGetIncluded(p: PropertyDefinition) { p.request.getStatus == Include }
  predicate PropertyGetConditional(p: PropertyDefinition) { p.request.getStatus == IncludeConditionally }

  /** `getAllInGetRequestWithoutConditional`: both get statuses are INCLUDE. */
  function GetAllInGetRequestWithoutConditional(ps: seq<PropertyDefinition>): (r: seq<PropertyDefinition>)
    ensures forall p :: p in r <==> p in ps && p.owner.request.getStatus == Include && p.request.getStatus == Include
  {
    Filter(Filter(ps, ModelGetIncluded), PropertyGetIncluded)
  }

  /** `getAllInGetRequestConditional`: the property's get status is INCLUDE_CONDITIONALLY. */
  function GetAllInGetRequestConditional(ps: seq<PropertyDefinition>): (r: seq<PropertyDefinition>)
    ensures forall p :: p in r <==> p in ps && p.request.getStatus == IncludeConditionally
  {
    Filter(ps, PropertyGetConditional)
  }

  predicate ModelInCreate(p: PropertyDefinition) { IsIncluded(p.owner.request.createStatus) }
  predicate PropertyInCreate(p: PropertyDefinition) { IsIncluded(p.request.createStatus) }
  predicate ModelInUpdate(p: PropertyDefinition) { IsIncluded(p.owner.request.updateStatus) }
  predicate PropertyInUpdate(p: PropertyDefinition) { IsIncluded(p.request.updateStatus) }

  /** `getAllInCreateRequest`. */
  function GetAllInCreateRequest(ps: seq<PropertyDefinition>): (r: seq<PropertyDefinition>)
    ensures forall p :: p in r <==> (p in ps && IsIncluded(p.owner.request.createStatus) && !p.isComputed
                                     && !p.isAppendedInResource && IsIncluded(p.request.createStatus))
  {
    Filter(Filter(Filter(Filter(ps, ModelInCreate), NotComputed), NotAppended), PropertyInCreate)
  }

  /** `getAllInUpdateRequest`. */
  function GetAllInUpdateRequest(ps: seq<PropertyDefinition>): (r: seq<PropertyDefinition>)
    ensures forall p :: p in r <==> (p in ps && IsIncluded(p.owner.request.updateStatus) && !p.isComputed
                                     && !p.isAppendedInResource && IsIncluded(p.request.updateStatus))
  {
    Filter(Filter(Filter(Filter(ps, ModelInUpdate), NotComputed), NotAppended), PropertyInUpdate)
  }

  predicate SearchableType(p: PropertyDefinition) {
    p.propertyType == Id || p.propertyType == Ulid || p.propertyType == String || p.propertyType == Enum
  }

  /** `getSearchable`. */
  function GetSearchable(ps: seq<PropertyDefinition>): (r: seq<PropertyDefinition>)
    ensures forall p :: p in r <==> (p in ps && p.fromRelation.None? && !p.isComputed
                                     && (p.propertyType in {Id, Ulid, String, Enum}) && p.index.Some?)
  {
    Filter(Filter(GetNonComputed(GetNonRelation(ps)), SearchableType), Indexed)
  }

  predicate HasInlineChoices(p: PropertyDefinition) { p.kind.EnumKind? && p.kind.source.Inline? }

  /** The properties `generateEnumDefinitions` makes an enum for: enum properties with inline choices. */
  function GetEnumsToGenerate(ps: seq<PropertyDefinition>): (r: seq<PropertyDefinition>)
    ensures forall p :: p in r <==> p in ps && p.kind.EnumKind? && p.kind.source.Inline?
  {
    Filter(ps, HasInlineChoices)
  }

  /** The test `firstWhere('name', name)` and `search` apply. */
  function NamedAs(name: string): PropertyDefinition -> bool {
    (p: PropertyDefinition) => p.name == name
  }

  /** `get`: the first property with that name (the fallback to the collection key is left out). */
  function Get(ps: seq<PropertyDefinition>, name: string): (r: Option<PropertyDefinition>)
    ensures r.Some? ==> r.value in ps && r.value.name == name
    ensures r.None? <==> forall p :: p in ps ==> p.name != name
    ensures r.Some? ==> exists i :: 0 <= i < |ps| && ps[i] == r.value && forall j :: 0 <= j < i ==> ps[j].name != name
  {
    First(ps, NamedAs(name))
  }

  /** `exists`. */
  predicate Exists(ps: seq<PropertyDefinition>, name: string): (r: bool)
    ensures r <==> exists i :: 0 <= i < |ps| && ps[i].name == name
  {
    Get(ps, name).Some?
  }

  // ---- ordering ----

  /** The sort key of `order`: inherited first, then relation-derived, then the rest. */
  function Rank(p: PropertyDefinition): (r: nat)
    ensures r <= 2
  {
    if p.isInherited then 0 else if p.fromRelation.Some? then 1 else 2
  }

  /** `order`: `sortBy` on the rank; PHP's sort is stable. */
  function Order(ps: seq<PropertyDefinition>): (r: seq<PropertyDefinition>)
    ensures multiset(r) == multiset(ps)
    ensures SortedBy(r, Rank)
  {
    SortByPermutes(ps, Rank);
    SortByBlocks3(ps, Rank);
    Blocks3Sorted(ps, Rank);
    SortBy(ps, Rank)
  }

  /** `order` puts the inherited properties first, then those derived from relations, then
    * the rest, keeping collection order inside each group. */
  lemma {:induction false} OrderIsStable(ps: seq<PropertyDefinition>)
    ensures Order(ps) == Block(ps, Rank, 0) + Block(ps, Rank, 1) + Block(ps, Rank, 2)
    ensures forall p :: p in Block(ps, Rank, 0) ==> p in ps && p.isInherited
    ensures forall p :: p in Block(ps, Rank, 1) ==> p in ps && !p.isInherited && p.fromRelation.Some?
    ensures forall p :: p in Block(ps, Rank, 2) ==> p in ps && !p.isInherited && p.fromRelation.None?
  {
    SortByBlocks3(ps, Rank);
  }

  // ---- index pairs ----

  function GroupName(g: (string, seq<string>)): string { g.0 }

  /** One step of the `determineIndexPairs` reduce. */
  function AddToIndexGroup(carry: seq<(string, seq<string>)>, p: PropertyDefinition): seq<(string, seq<string>)> {
    if p.index.Some? && Truthy(p.index.value) then
      var k := p.index.value;
      var group := match Lookup(carry, GroupName, k) case Some(g) => g.1 case None => [];
      Put(carry, GroupName, (k, group + [p.name]))
    else carry
  }

  /** `determineIndexPairs`: property names grouped under their (truthy) index tag. */
  function IndexPairs(ps: seq<PropertyDefinition>): (r: seq<(string, seq<string>)>)
    ensures UniqueKeys(r, GroupName)
    decreases |ps|
  {
    if |ps| == 0 then []
    else
      var carry := IndexPairs(ps[..|ps| - 1]);
      AddToIndexGroupUnique(carry, ps[|ps| - 1]);
      AddToIndexGroup(carry, ps[|ps| - 1])
  }

  lemma {:induction false} AddToIndexGroupUnique(carry: seq<(string, seq<string>)>, p: PropertyDefinition)
    requires UniqueKeys(carry, GroupName)
    ensures UniqueKeys(AddToIndexGroup(carry, p), GroupName)
  {
    if p.index.Some? && Truthy(p.index.value) {
      var k := p.index.value;
      var group := match Lookup(carry, GroupName, k) case Some(g) => g.1 case None => [];
      PutUnique(carry, GroupName, (k, group + [p.name]));
    }
  }

  /** The names of the properties carrying tag `k`, in collection order. */
  function GroupOf(ps: seq<PropertyDefinition>, k: string): (r: seq<string>)
    ensures forall n :: n in r <==> exists p :: p in ps && p.index == Some(k) && p.name == n
    decreases |ps|
  {
    if |ps| == 0 then []
    else
      var x := ps[|ps| - 1];
      assert forall p :: p in ps <==> p in ps[..|ps| - 1] || p == x;
      GroupOf(ps[..|ps| - 1], k) + (if x.index == Some(k) then [x.name] else [])
  }

  /** One reduce step changes only the group of the property's own tag, when that tag is truthy. */
  lemma {:induction false} AddToIndexGroupLookup(carry: seq<(string, seq<string>)>, x: PropertyDefinition, k: string)
    requires UniqueKeys(carry, GroupName)
    ensures Lookup(AddToIndexGroup(carry, x), GroupName, k) ==
      if x.index == Some(k) && Truthy(k)
      then Some((k, (match Lookup(carry, GroupName, k) case Some(g) => g.1 case None => []) + [x.name]))
      else Lookup(carry, GroupName, k)
  {
    if x.index.Some? && Truthy(x.index.value) {
      var t := x.index.value;
      var group := match Lookup(carry, GroupName, t) case Some(g) => g.1 case None => [];
      LookupPut(carry, GroupName, (t, group + [x.name]), k);
    }
  }

  /** Under each truthy tag `determineIndexPairs` lists exactly the properties carrying that
    * tag, in collection order; a tag no property carries, or a falsy one, has no group. */
  lemma {:induction false} IndexPairsGroups(ps: seq<PropertyDefinition>, k: string)
    ensures Lookup(IndexPairs(ps), GroupName, k) ==
      if Truthy(k) && |GroupOf(ps, k)| > 0 then Some((k, GroupOf(ps, k))) else None
    decreases |ps|
  {
    if |ps| > 0 {
      var init, x := ps[..|ps| - 1], ps[|ps| - 1];
      IndexPairsGroups(init, k);
      var carry := IndexPairs(init);
      assert IndexPairs(ps) == AddToIndexGroup(carry, x);
      assert GroupOf(ps, k) == GroupOf(init, k) + (if x.index == Some(k) then [x.name] else []);
      AddToIndexGroupLookup(carry, x, k);
      if x.index == Some(k) && Truthy(k) {
        assert (match Lookup(carry, GroupName, k) case Some(g) => g.1 case None => []) == GroupOf(init, k);
        assert Lookup(IndexPairs(ps), GroupName, k) == Some((k, GroupOf(ps, k)));
      } else if x.index != Some(k) {
        assert GroupOf(ps, k) == GroupOf(init, k);
      }
    }
  }

  /** The truthy index tags of `ps`, each listed once, where it first appears. */
  function TagsInOrder(ps: seq<PropertyDefinition>): (r: seq<string>)
    ensures forall k :: k in r <==> Truthy(k) && exists p :: p in ps && p.index == Some(k)
    ensures forall i, j :: 0 <= i < j < |r| ==> r[i] != r[j]
    decreases |ps|
  {
    if |ps| == 0 then []
    else
      var init, x := TagsInOrder(ps[..|ps| - 1]), ps[|ps| - 1];
      assert forall p :: p in ps <==> p in ps[..|ps| - 1] || p == x;
      if x.index.Some? && Truthy(x.index.value) && x.index.value !in init then init + [x.index.value] else init
  }

  /** `determineIndexPairs` lists its groups in the order their tags first appear among the
    * properties, so the create migration's index lines come out in that order. */
  lemma {:induction false} IndexPairsTags(ps: seq<PropertyDefinition>)
    ensures Keys(IndexPairs(ps), GroupName) == TagsInOrder(ps)
    decreases |ps|
  {
    if |ps| > 0 {
      var init, x := ps[..|ps| - 1], ps[|ps| - 1];
      IndexPairsTags(init);
      var carry := IndexPairs(init);
      var tags := TagsInOrder(init);
      assert IndexPairs(ps) == AddToIndexGroup(carry, x);
      if x.index.Some? && Truthy(x.index.value) {
        var k := x.index.value;
        var group := match Lookup(carry, GroupName, k) case Some(g) => g.1 case None => [];
        var r := Put(carry, GroupName, (k, group + [x.name]));
        if HasKey(carry, GroupName, k) {
          var i :| 0 <= i < |carry| && GroupName(carry[i]) == k;
          assert tags[i] == k;
          assert Keys(r, GroupName) == Keys(carry, GroupName);
        } else {
          assert Keys(r, GroupName) == Keys(carry, GroupName) + [k];
        }
      }
    }
  }
}
