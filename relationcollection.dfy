/** src/Generator/Definition/RelationCollection.php: filters over a model's relations, in
  * collection order. */
module RelationCollection {
  import opened Wrappers
  import opened Seqs
  import opened Enums
  import opened Definitions

  predicate Required(r: RelationDefinition) { r.isRequired }
  predicate NotRequired(r: RelationDefinition) { !r.isRequired }
  predicate InGet(r: RelationDefinition) { IsIncluded(r.request.getStatus) }
  predicate EagerLoaded(r: RelationDefinition) { r.shouldEagerLoad }
  predicate IsEvent(r: RelationDefinition) { r.isEvent }

  function GetRequired(rs: seq<RelationDefinition>): seq<RelationDefinition> { Filter(rs, Required) }
  function GetNonRequired(rs: seq<RelationDefinition>): seq<RelationDefinition> { Filter(rs, NotRequired) }

  /** `getRequired` and `getNonRequired` split the relations: together they hold every
    * relation once, each in collection order. */
  lemma {:induction false} RequiredPartition(rs: seq<RelationDefinition>)
    ensures multiset(GetRequired(rs)) + multiset(GetNonRequired(rs)) == multiset(rs)
    ensures |GetRequired(rs)| + |GetNonRequired(rs)| == |rs|
    ensures forall r :: r in GetRequired(rs) <==> r in rs && r.isRequired
    ensures forall r :: r in GetNonRequired(rs) <==> r in rs && !r.isRequired
  {
    FilterPartition(rs, Required, NotRequired);
    assert |multiset(GetRequired(rs)) + multiset(GetNonRequired(rs))| == |multiset(rs)|;
  }

  /** `getAllInGetRequest`: the relation's get status is INCLUDE or INCLUDE_CONDITIONALLY. */
  function GetAllInGetRequest(rs: seq<RelationDefinition>): (r: seq<RelationDefinition>)
    ensures forall x :: x in r <==> (x in rs && (x.request.getStatus == Include || x.request.getStatus == IncludeConditionally))
  {
    Filter(rs, InGet)
  }

  /** `getEagerLoadable`: `where('shouldEagerLoad')`. */
  function GetEagerLoadable(rs: seq<RelationDefinition>): (r: seq<RelationDefinition>)
    ensures forall x :: x in r <==> x in rs && x.shouldEagerLoad
  {
    Filter(rs, EagerLoaded)
  }

  /** `getWithEventOrNull`: the first relation flagged as event, or `None` iff there is none. */
  function GetWithEventOrNull(rs: seq<RelationDefinition>): (r: Option<RelationDefinition>)
    ensures r.None? <==> forall x :: x in rs ==> !x.isEvent
    ensures r.Some? ==> exists i :: 0 <= i < |rs| && rs[i] == r.value && r.value.isEvent
                                   && forall j :: 0 <= j < i ==> !rs[j].isEvent
  {
    First(rs, IsEvent)
  }
}
