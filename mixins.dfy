/** What the mixins add to a model (`addMixins` and the four `add…` methods,
  * src/Generator/Command/GeneratorCommand.php:618-808) and the title-attribute check
  * (`validateTitleAttributes`, :579-594), as functions on a model's changing state.
  * `Command.GeneratorCommand` carries them out on the model objects. */
module Mixins {
  import opened Wrappers
  import opened Seqs
  import opened Keyed
  import opened Enums
  import opened Errors
  import opened Collaborators
  import opened Definitions
  import opened PropertyCollection
  import opened Models
  import Relations
  import Properties

  /** A property a mixin adds: never required, computed, inherited or derived from a relation,
    * and without rules; its request and Nova field carry its name. */
  function MixinProperty(name: string, owner: ModelRef, t: PropertyType, labelText: string,
                         get: RequestStatus, create: RequestStatus, update: RequestStatus,
                         nova: (bool, bool, bool, bool), index: Option<string>): (p: PropertyDefinition)
    ensures MixinShaped(p, name, owner)
    ensures p.propertyType == t && p.labelText == labelText && p.index == index
    ensures p.request.getStatus == get && p.request.createStatus == create && p.request.updateStatus == update
    ensures p.nova == Nova(name, nova.0, nova.1, nova.2, nova.3)
  {
    PropertyDefinition(name, owner, t, labelText, false, false, false, [],
      RequestDefinition(name, false, get, create, update), Nova(name, nova.0, nova.1, nova.2, nova.3), index, false, None, Plain)
  }

  predicate MixinShaped(p: PropertyDefinition, name: string, owner: ModelRef) {
    && p.name == name && p.owner == owner
    && !p.isRequired && !p.isComputed && !p.isAppendedInResource && !p.isInherited
    && p.rules == [] && p.fromRelation.None? && p.kind == Plain
    && p.request.name == name && !p.request.isRequired && p.nova.name == name
  }

  /** The BELONGS_TO `user_reviewer` relation of the REVIEW mixin (:641-668): towards `User`,
    * indexed under `review`, in no request, shown everywhere in Nova, without an inverse. */
  function ReviewRelation(owner: ModelRef, user: ModelRef): (r: RelationDefinition)
    ensures r.name == "user_reviewer" && r.propertyName == "user_reviewer_id" && r.owner == owner
    ensures r.relationType == BelongsTo && r.counterpart == Single(user) && r.index == "review"
    ensures !r.shouldCreateCounterRelation && !r.shouldEagerLoad && !r.isEvent && !r.isRequired && !r.isComputed
    ensures r.request == RequestDefinition("user_reviewer", false, Exclude, Exclude, Exclude)
    ensures r.nova == Nova("user_reviewer", true, true, true, true)
  {
    RelationDefinition(
      "user_reviewer", "user_reviewer_id", owner, BelongsTo, false, false, false, false, false, "review",
      RequestDefinition("user_reviewer", false, Exclude, Exclude, Exclude),
      Nova("user_reviewer", true, true, true, true), Single(user))
  }

  /** `review_message` (:755-776): a string only read back, conditionally, in the get request. */
  function ReviewMessageProperty(owner: ModelRef): (p: PropertyDefinition)
    ensures MixinShaped(p, "review_message", owner) && p.propertyType == String && p.index.None?
    ensures p.request.getStatus == IncludeConditionally && p.request.createStatus == Exclude && p.request.updateStatus == Exclude
    ensures p.nova == Nova("review_message", false, true, false, true)
  {
    MixinProperty("review_message", owner, String, "Review Message",
      IncludeConditionally, Exclude, Exclude, (false, true, false, true), None)
  }

  /** `geolocation` (:679-702): in every request, hidden on the Nova index. */
  function GeolocationProperty(owner: ModelRef): (p: PropertyDefinition)
    ensures MixinShaped(p, "geolocation", owner) && p.propertyType == Geolocation && p.index.None?
    ensures p.request.getStatus == Include && p.request.createStatus == Include && p.request.updateStatus == Include
    ensures p.nova == Nova("geolocation", false, true, true, true)
  {
    MixinProperty("geolocation", owner, Geolocation, "Geolocation",
      Include, Include, Include, (false, true, true, true), None)
  }

  /** `address` (:705-731): only in the get request. */
  function AddressProperty(owner: ModelRef): (p: PropertyDefinition)
    ensures MixinShaped(p, "address", owner) && p.propertyType == Address && p.index.None?
    ensures p.request.getStatus == Include && p.request.createStatus == Exclude && p.request.updateStatus == Exclude
    ensures p.nova == Nova("address", false, true, true, true)
  {
    MixinProperty("address", owner, Address, "Address",
      Include, Exclude, Exclude, (false, true, true, true), None)
  }

  /** `deleted_at` (:781-806): an indexed timestamp in no request, shown only on the Nova detail page. */
  function DeletedAtProperty(owner: ModelRef): (p: PropertyDefinition)
    ensures MixinShaped(p, "deleted_at", owner) && p.propertyType == Timestamp && p.index == Some("deleted_at")
    ensures p.request.getStatus == Exclude && p.request.createStatus == Exclude && p.request.updateStatus == Exclude
    ensures p.nova == Nova("deleted_at", false, true, false, false)
  {
    MixinProperty("deleted_at", owner, Timestamp, "Deleted",
      Exclude, Exclude, Exclude, (false, true, false, false), Some("deleted_at"))
  }

  /** `addReviewRelations` (:639-675): without a `User` model, or when `user_reviewer` is taken,
    * an error; otherwise the relation and its `user_reviewer_id` property are appended. */
  function ReviewRelations(inf: Inflector, h: ModelHeader, user: Option<ModelRef>, st: ModelState): (r: Result<ModelState, Error>)
    ensures user.None? ==> r == Err(ModelDoesNotExist(h.name, "User"))
    ensures user.Some? ==> (r.Err? <==> HasKey(st.relations, RelationName, "user_reviewer"))
    ensures user.Some? && r.Err? ==> r.error == RelationAlreadyExists(h.name, "user_reviewer")
    ensures r.Ok? ==> r.value == st.(relations := st.relations + [ReviewRelation(h.Ref(), user.value)],
                                     properties := st.properties + Relations.GenerateAllForeignKeyProperty(inf, ReviewRelation(h.Ref(), user.value)))
  {
    match user
    case None => Err(ModelDoesNotExist(h.name, "User"))
    case Some(u) =>
      var rel := ReviewRelation(h.Ref(), u);
      var rs :- AddedRelation(h.name, st.relations, rel);
      Ok(st.(relations := rs, properties := st.properties + Relations.GenerateAllForeignKeyProperty(inf, rel)))
  }

  /** The REVIEW mixin adds exactly one relation and one property, `user_reviewer_id`, behind
    * what was there. */
  lemma {:induction false} ReviewRelationsAppend(inf: Inflector, h: ModelHeader, user: Option<ModelRef>, st: ModelState)
    requires ReviewRelations(inf, h, user, st).Ok?
    ensures var out := ReviewRelations(inf, h, user, st).value;
      && out.relations[..|st.relations|] == st.relations && |out.relations| == |st.relations| + 1
      && out.properties[..|st.properties|] == st.properties && |out.properties| == |st.properties| + 1
      && out.properties[|st.properties|].name == "user_reviewer_id"
      && out.properties[|st.properties|].index == Some("review")
      && Lookup(out.relations, RelationName, "user_reviewer") == Some(ReviewRelation(h.Ref(), user.value))
  {
    var out := ReviewRelations(inf, h, user, st).value;
    var rel := ReviewRelation(h.Ref(), user.value);
    assert out.relations == st.relations + [rel];
    assert !HasKey(st.relations, RelationName, "user_reviewer");
    SlotAt(out.relations, RelationName, "user_reviewer", |st.relations|);
  }

  /** The choice names of the `status` property, or `None` when there is no such property or it
    * is not an enum; `get` takes the first property of that name. */
  function StatusChoiceNames(env: Environment, ps: seq<PropertyDefinition>): Option<Result<seq<string>, Error>> {
    match Get(ps, "status")
    case None => None
    case Some(p) =>
      if !p.kind.EnumKind? then None
      else
        match Properties.GetChoices(env, p)
        case Err(e) => Some(Err(e))
        case Ok(cs) => Some(Ok(Map(cs, Properties.ChoiceName)))
  }

  /** `addReviewProperties` (:736-777): the first `status` property must be an enum whose
    * choices include `IN_REVIEW` and `REJECTED`; then `review_message` is appended. */
  function ReviewProperties(env: Environment, h: ModelHeader, st: ModelState): (r: Result<ModelState, Error>)
    ensures StatusChoiceNames(env, st.properties).None? ==> r == Err(ReviewStatusNotEnum(h.name))
    ensures r.Ok? <==> (StatusChoiceNames(env, st.properties).Some? && StatusChoiceNames(env, st.properties).value.Ok?
                        && "IN_REVIEW" in StatusChoiceNames(env, st.properties).value.value
                        && "REJECTED" in StatusChoiceNames(env, st.properties).value.value)
    ensures r.Ok? ==> r.value == st.(properties := st.properties + [ReviewMessageProperty(h.Ref())])
  {
    match StatusChoiceNames(env, st.properties)
    case None => Err(ReviewStatusNotEnum(h.name))
    case Some(Err(e)) => Err(e)
    case Some(Ok(names)) =>
      if "IN_REVIEW" !in names || "REJECTED" !in names then Err(ReviewChoicesMissing(h.name))
      else Ok(st.(properties := st.properties + [ReviewMessageProperty(h.Ref())]))
  }

  /** A `status` enum with inline choices named `IN_REVIEW` and `REJECTED` satisfies the
    * REVIEW mixin, whatever else the model holds. */
  lemma {:induction false} ReviewAcceptsInlineStatus(env: Environment, h: ModelHeader, st: ModelState, i: nat, choices: seq<EnumChoice>)
    requires i < |st.properties| && st.properties[i].name == "status"
    requires forall j :: 0 <= j < i ==> st.properties[j].name != "status"
    requires st.properties[i].kind == EnumKind(Inline(choices))
    requires exists a :: 0 <= a < |choices| && choices[a].name == "IN_REVIEW"
    requires exists b :: 0 <= b < |choices| && choices[b].name == "REJECTED"
    ensures ReviewProperties(env, h, st).Ok?
  {
    var ps := st.properties;
    assert ps[i] in ps;
    var g := Get(ps, "status");
    var k :| 0 <= k < |ps| && ps[k] == g.value && forall j :: 0 <= j < k ==> ps[j].name != "status";
    assert k == i;
    assert Properties.GetChoices(env, ps[i]) == Ok(choices);
    var a :| 0 <= a < |choices| && choices[a].name == "IN_REVIEW";
    var b :| 0 <= b < |choices| && choices[b].name == "REJECTED";
    var names := Map(choices, Properties.ChoiceName);
    assert StatusChoiceNames(env, ps) == Some(Ok(names));
    assert names[a] == "IN_REVIEW" && names[b] == "REJECTED";
    assert "IN_REVIEW" in names && "REJECTED" in names;
  }

  /** `addGeolocationProperties` (:677-734): `geolocation`, then `address` when the mixin asks
    * for it. A plain mixin of this type is refused by the method's parameter type. */
  function GeolocationProperties(h: ModelHeader, m: MixinDefinition, st: ModelState): (r: Result<ModelState, Error>)
    ensures r.Err? <==> m.PlainMixin?
    ensures r.Err? ==> r.error == GeolocationMixinTypeError(h.name)
    ensures r.Ok? ==> r.value.relations == st.relations && r.value.hasObserver == st.hasObserver
    ensures r.Ok? ==> |r.value.properties| > |st.properties| && r.value.properties[..|st.properties|] == st.properties
    ensures r.Ok? ==> r.value.properties[|st.properties|] == GeolocationProperty(h.Ref())
    ensures r.Ok? ==> (|r.value.properties| == |st.properties| + 2 <==> m.shouldIncludeAddress)
    ensures r.Ok? ==> (|r.value.properties| == |st.properties| + 1 <==> !m.shouldIncludeAddress)
    ensures r.Ok? && m.shouldIncludeAddress ==> r.value.properties[|st.properties| + 1] == AddressProperty(h.Ref())
  {
    match m
    case PlainMixin(_, _) => Err(GeolocationMixinTypeError(h.name))
    case GeolocationMixinDefinition(_, _, address) =>
      var geo := st.properties + [GeolocationProperty(h.Ref())];
      Ok(st.(properties := if address then geo + [AddressProperty(h.Ref())] else geo))
  }

  /** `addSoftDeleteProperties` (:779-808): `deleted_at` right after `updated_at`. */
  function SoftDeleteProperties(h: ModelHeader, st: ModelState): (r: ModelState)
    ensures r.relations == st.relations && r.hasObserver == st.hasObserver
    ensures |r.properties| == |st.properties| + 1
    ensures multiset(r.properties) == multiset(st.properties) + multiset{DeletedAtProperty(h.Ref())}
  {
    var out := InsertAfter(st.properties, "updated_at", DeletedAtProperty(h.Ref()));
    SoftDeleteSplices(h, st.properties);
    st.(properties := out)
  }

  lemma {:induction false} SoftDeleteSplices(h: ModelHeader, ps: seq<PropertyDefinition>)
    ensures multiset(InsertAfter(ps, "updated_at", DeletedAtProperty(h.Ref()))) == multiset(ps) + multiset{DeletedAtProperty(h.Ref())}
  {
    var p := DeletedAtProperty(h.Ref());
    match FindIndex(ps, NamedAs("updated_at"))
    case None =>
      assert forall q :: q in ps ==> q.name != "updated_at" by {
        forall q | q in ps ensures q.name != "updated_at" {
          var k :| 0 <= k < |ps| && ps[k] == q;
          assert !NamedAs("updated_at")(ps[k]);
        }
      }
    case Some(i) =>
      assert ps == ps[..i + 1] + ps[i + 1..];
  }

  /** On a model whose properties start with the four defaults (as every model's do after
    * parsing), `deleted_at` lands fifth, between `updated_at` and the declared properties. */
  lemma {:induction false} SoftDeleteAfterDefaults(h: ModelHeader, st: ModelState)
    requires |st.properties| >= 4 && st.properties[3].name == "updated_at"
    requires forall j :: 0 <= j < 3 ==> st.properties[j].name != "updated_at"
    ensures SoftDeleteProperties(h, st).properties == st.properties[..4] + [DeletedAtProperty(h.Ref())] + st.properties[4..]
  {
    InsertAfterAt(st.properties, "updated_at", DeletedAtProperty(h.Ref()), 3);
  }

  /** The REVIEW mixin (:623-626): the model related to `User` first, then its `status` checked. */
  function ReviewMixin(env: Environment, h: ModelHeader, user: Option<ModelRef>, st: ModelState): Result<ModelState, Error> {
    match ReviewRelations(env.inflector, h, user, st)
    case Err(e) => Err(e)
    case Ok(st1) => ReviewProperties(env, h, st1)
  }

  /** One mixin, dispatched on its type (:621-635). */
  function ApplyMixin(env: Environment, h: ModelHeader, user: Option<ModelRef>, st: ModelState, m: MixinDefinition): Result<ModelState, Error> {
    match m.mixinType
    case Review => ReviewMixin(env, h, user, st)
    case GeolocationMixin => GeolocationProperties(h, m, st)
    case SoftDelete => Ok(SoftDeleteProperties(h, st))
  }

  /** What a model holds before another mixin is applied, it still holds after: the observer flag,
    * every property, and every relation in its slot. */
  predicate Extends(st: ModelState, st1: ModelState) {
    && st1.hasObserver == st.hasObserver
    && multiset(st.properties) <= multiset(st1.properties)
    && |st.relations| <= |st1.relations| && st1.relations[..|st.relations|] == st.relations
  }

  lemma {:induction false} AppendExtends(st: ModelState, st1: ModelState, props: seq<PropertyDefinition>, rels: seq<RelationDefinition>)
    requires st1 == st.(properties := st.properties + props, relations := st.relations + rels)
    ensures Extends(st, st1)
  {
    assert st1.relations[..|st.relations|] == st.relations;
  }

  lemma {:induction false} ExtendsTrans(st: ModelState, st1: ModelState, st2: ModelState)
    requires Extends(st, st1) && Extends(st1, st2)
    ensures Extends(st, st2)
  {
    assert st2.relations[..|st.relations|] == st2.relations[..|st1.relations|][..|st.relations|];
  }

  lemma {:induction false} ReviewExtends(env: Environment, h: ModelHeader, user: Option<ModelRef>, st: ModelState)
    requires ReviewRelations(env.inflector, h, user, st).Ok?
    requires ReviewProperties(env, h, ReviewRelations(env.inflector, h, user, st).value).Ok?
    ensures Extends(st, ReviewProperties(env, h, ReviewRelations(env.inflector, h, user, st).value).value)
  {
    var st1 := ReviewRelations(env.inflector, h, user, st).value;
    var rel := ReviewRelation(h.Ref(), user.value);
    var fk := Relations.GenerateAllForeignKeyProperty(env.inflector, rel);
    var st2 := ReviewProperties(env, h, st1).value;
    AppendExtends(st, st1, fk, [rel]);
    assert st1.relations + [] == st1.relations;
    AppendExtends(st1, st2, [ReviewMessageProperty(h.Ref())], []);
    ExtendsTrans(st, st1, st2);
  }

  lemma {:induction false} GeolocationExtends(h: ModelHeader, m: MixinDefinition, st: ModelState)
    requires GeolocationProperties(h, m, st).Ok?
    ensures Extends(st, GeolocationProperties(h, m, st).value)
  {
    var out := GeolocationProperties(h, m, st).value;
    AppendExtends(st, out, out.properties[|st.properties|..], []);
  }

  lemma {:induction false} SoftDeleteExtends(h: ModelHeader, st: ModelState)
    ensures Extends(st, SoftDeleteProperties(h, st))
  {
    assert SoftDeleteProperties(h, st).relations[..|st.relations|] == st.relations;
  }

  /** Each mixin only adds. */
  lemma {:induction false} ApplyMixinExtends(env: Environment, h: ModelHeader, user: Option<ModelRef>, st: ModelState, m: MixinDefinition)
    requires ApplyMixin(env, h, user, st, m).Ok?
    ensures Extends(st, ApplyMixin(env, h, user, st, m).value)
  {
    match m.mixinType
    case Review => ReviewExtends(env, h, user, st);
    case GeolocationMixin => GeolocationExtends(h, m, st);
    case SoftDelete => SoftDeleteExtends(h, st);
  }

  /** `addMixins` (:618-637): the model's mixins in declaration order; the first error stops. */
  function ApplyMixins(env: Environment, h: ModelHeader, user: Option<ModelRef>, st: ModelState, ms: seq<MixinDefinition>): Result<ModelState, Error>
    decreases |ms|
  {
    if |ms| == 0 then Ok(st)
    else
      var st1 :- ApplyMixins(env, h, user, st, ms[..|ms| - 1]);
      ApplyMixin(env, h, user, st1, ms[|ms| - 1])
  }

  /** One more mixin, applied on what the earlier ones left. */
  lemma {:induction false} ApplyMixinsSnoc(env: Environment, h: ModelHeader, user: Option<ModelRef>, st: ModelState, ms: seq<MixinDefinition>, m: MixinDefinition)
    requires ApplyMixins(env, h, user, st, ms).Ok?
    ensures ApplyMixins(env, h, user, st, ms + [m]) == ApplyMixin(env, h, user, ApplyMixins(env, h, user, st, ms).value, m)
  {
    assert (ms + [m])[..|ms|] == ms;
  }

  /** The first mixin that fails decides `addMixins`: later mixins are never applied. */
  lemma {:induction false} ApplyMixinsStops(env: Environment, h: ModelHeader, user: Option<ModelRef>, st: ModelState, ms: seq<MixinDefinition>, more: seq<MixinDefinition>)
    requires ApplyMixins(env, h, user, st, ms).Err?
    ensures ApplyMixins(env, h, user, st, ms + more) == ApplyMixins(env, h, user, st, ms)
    decreases |more|
  {
    if |more| == 0 {
      assert ms + more == ms;
    } else {
      assert (ms + more)[..|ms + more| - 1] == ms + more[..|more| - 1];
      ApplyMixinsStops(env, h, user, st, ms, more[..|more| - 1]);
    }
  }

  /** The first mixin that fails, at position `j - 1`, decides all of `ms`. */
  lemma {:induction false} ApplyMixinsStopsAt(env: Environment, h: ModelHeader, user: Option<ModelRef>, st: ModelState, ms: seq<MixinDefinition>, j: nat)
    requires j <= |ms| && ApplyMixins(env, h, user, st, ms[..j]).Err?
    ensures ApplyMixins(env, h, user, st, ms) == ApplyMixins(env, h, user, st, ms[..j])
  {
    assert ms[..j] + ms[j..] == ms;
    ApplyMixinsStops(env, h, user, st, ms[..j], ms[j..]);
  }

  /** Mixins only add: every property and relation a model had is still there, relations in
    * their slots, and the observer flag is untouched. */
  lemma {:induction false} ApplyMixinsExtend(env: Environment, h: ModelHeader, user: Option<ModelRef>, st: ModelState, ms: seq<MixinDefinition>)
    requires ApplyMixins(env, h, user, st, ms).Ok?
    ensures Extends(st, ApplyMixins(env, h, user, st, ms).value)
    decreases |ms|
  {
    if |ms| > 0 {
      ApplyMixinsExtend(env, h, user, st, ms[..|ms| - 1]);
      var st1 := ApplyMixins(env, h, user, st, ms[..|ms| - 1]).value;
      var st2 := ApplyMixins(env, h, user, st, ms).value;
      ApplyMixinExtends(env, h, user, st1, ms[|ms| - 1]);
      ExtendsTrans(st, st1, st2);
    }
  }

  /** A model without mixins is left as it is. */
  lemma {:induction false} NoMixinsNoChange(env: Environment, h: ModelHeader, user: Option<ModelRef>, st: ModelState)
    ensures ApplyMixins(env, h, user, st, []) == Ok(st)
  {
  }

  // ---- title attributes ----

  function NamedNonComputed(attribute: string): PropertyDefinition -> bool {
    (p: PropertyDefinition) => p.name == attribute && !p.isComputed
  }

  /** `getNonComputed()->get(a)` is the first property that has name `a` and is not computed. */
  lemma {:induction false} TitleLookup(ps: seq<PropertyDefinition>, attribute: string)
    ensures Get(GetNonComputed(ps), attribute) == First(ps, NamedNonComputed(attribute))
  {
    FirstOfFilter(ps, NotComputed, NamedAs(attribute), NamedNonComputed(attribute));
  }

  /** The complaint about one title attribute: the first non-computed property of that name
    * has no index. Computed or missing properties pass. */
  predicate LacksIndex(ps: seq<PropertyDefinition>, attribute: string) {
    match Get(GetNonComputed(ps), attribute)
    case None => false
    case Some(p) => p.index.None?
  }

  /** There is a complaint exactly when the first non-computed property of that name has no
    * index. */
  lemma {:induction false} LacksIndexMeans(ps: seq<PropertyDefinition>, attribute: string)
    ensures LacksIndex(ps, attribute) <==>
      exists i :: 0 <= i < |ps| && ps[i].name == attribute && !ps[i].isComputed && ps[i].index.None?
                  && forall j :: 0 <= j < i ==> !(ps[j].name == attribute && !ps[j].isComputed)
  {
    TitleLookup(ps, attribute);
    var f := NamedNonComputed(attribute);
    match Get(GetNonComputed(ps), attribute)
    case None =>
      assert forall i :: 0 <= i < |ps| ==> !f(ps[i]);
    case Some(p) =>
      var k :| 0 <= k < |ps| && ps[k] == p && forall j :: 0 <= j < k ==> !f(ps[j]);
      assert f(p);
      assert forall i :: (0 <= i < |ps| && f(ps[i]) && forall j :: 0 <= j < i ==> !f(ps[j])) ==> i == k;
  }

  /** `validateTitleAttributes`: the title attributes in order; the first complaint aborts. */
  function ValidateTitleAttributes(model: string, titles: seq<string>, ps: seq<PropertyDefinition>): Outcome<Error>
    decreases |titles|
  {
    if |titles| == 0 then Pass
    else if LacksIndex(ps, titles[0]) then Fail(TitleAttributeWithoutIndex(model, titles[0]))
    else ValidateTitleAttributes(model, titles[1..], ps)
  }

  /** The check passes exactly when no title attribute has a complaint. */
  lemma {:induction false} ValidateTitleAttributesPass(model: string, titles: seq<string>, ps: seq<PropertyDefinition>)
    ensures ValidateTitleAttributes(model, titles, ps).Pass? <==> forall i :: 0 <= i < |titles| ==> !LacksIndex(ps, titles[i])
    decreases |titles|
  {
    if |titles| > 0 {
      var t := titles[1..];
      ValidateTitleAttributesPass(model, t, ps);
      assert forall i :: 1 <= i < |titles| ==> titles[i] == t[i - 1];
    }
  }

  /** A failing check reports the first title attribute with a complaint. */
  lemma {:induction false} ValidateTitleAttributesFirst(model: string, titles: seq<string>, ps: seq<PropertyDefinition>)
    requires ValidateTitleAttributes(model, titles, ps).Fail?
    ensures exists i :: 0 <= i < |titles| && ValidateTitleAttributes(model, titles, ps).error == TitleAttributeWithoutIndex(model, titles[i])
                        && LacksIndex(ps, titles[i]) && forall j :: 0 <= j < i ==> !LacksIndex(ps, titles[j])
    decreases |titles|
  {
    var t := titles[1..];
    if LacksIndex(ps, titles[0]) {
      assert ValidateTitleAttributes(model, titles, ps).error == TitleAttributeWithoutIndex(model, titles[0]);
    } else {
      assert ValidateTitleAttributes(model, titles, ps) == ValidateTitleAttributes(model, t, ps);
      ValidateTitleAttributesFirst(model, t, ps);
      var i :| 0 <= i < |t| && ValidateTitleAttributes(model, t, ps).error == TitleAttributeWithoutIndex(model, t[i])
               && LacksIndex(ps, t[i]) && forall j :: 0 <= j < i ==> !LacksIndex(ps, t[j]);
      forall j | 0 <= j < i + 1 ensures !LacksIndex(ps, titles[j]) {
        if j > 0 { assert titles[j] == t[j - 1]; }
      }
      assert titles[i + 1] == t[i];
    }
  }

  /** Titles that are all indexed, non-computed properties pass. */
  lemma {:induction false} IndexedTitlesPass(model: string, titles: seq<string>, ps: seq<PropertyDefinition>)
    requires forall p :: p in ps && p.name in titles && !p.isComputed ==> p.index.Some?
    ensures ValidateTitleAttributes(model, titles, ps) == Pass
  {
    ValidateTitleAttributesPass(model, titles, ps);
  }
}
