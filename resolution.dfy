/** The four phases of `GeneratorCommand::handle`
  * (src/Generator/Command/GeneratorCommand.php:62-191) as functions on a value snapshot of the
  * registry `allModel`. `Command.GeneratorCommand` runs them on model objects and is proved to
  * leave the registry in the state these functions compute. */
module Resolution {
  import opened Wrappers
  import opened Text
  import opened Seqs
  import opened Keyed
  import opened Errors
  import opened Specs
  import opened Collaborators
  import opened Definitions
  import opened PropertyCollection
  import opened Models
  import opened Parsing
  import opened Mixins
  import Relations
  import RelationCollection
  import UlidPrefix
  import opened Sorting

  /** `allModel`: the model names in insertion order, and each model's fixed and changing parts. */
  datatype Registry = Registry(order: seq<string>, headers: map<string, ModelHeader>, states: map<string, ModelState>)

  /** The array is keyed by model name: each name once, in `order` and in both maps, and the
    * model under a key carries that name. Every model's relations are keyed by name. */
  predicate Valid(r: Registry) {
    && ByName(r)
    && Distinct(r.order)
    && (forall k :: k in r.order ==> k in r.headers)
    && (forall k :: k in r.headers ==> k in r.order)
    && KeyedStates(r.states)
  }

  /** Every model's relations are keyed by name. */
  predicate KeyedStates(states: map<string, ModelState>) {
    forall k :: k in states ==> UniqueKeys(states[k].relations, RelationName)
  }

  /** What the phases read of the registry: both maps share their keys and the model under
    * a key carries that name. */
  predicate ByName(r: Registry) {
    && r.states.Keys == r.headers.Keys
    && (forall k :: k in r.headers ==> r.headers[k].name == k)
  }

  /** Phases 2 to 4 change models' properties, relations and observer flags, never which
    * models there are, their order or their fixed parts. */
  predicate SameModels(r: Registry, r1: Registry) {
    r1.headers == r.headers && r1.order == r.order && r1.states.Keys == r.states.Keys
  }

  /** Replacing one model's changing part keeps the registry valid when its relations stay keyed. */
  lemma {:induction false} UpdateValid(r: Registry, n: string, st: ModelState)
    requires Valid(r) && n in r.states && UniqueKeys(st.relations, RelationName)
    ensures Valid(r.(states := r.states[n := st]))
  {
  }

  lemma {:induction false} UpdateKeyed(states: map<string, ModelState>, n: string, st: ModelState)
    requires KeyedStates(states) && UniqueKeys(st.relations, RelationName)
    ensures KeyedStates(states[n := st])
  {
  }

  /** A phase that keeps the models and keeps relations keyed keeps the registry valid. */
  lemma {:induction false} SameModelsValid(r: Registry, r1: Registry)
    requires Valid(r) && SameModels(r, r1) && KeyedStates(r1.states)
    ensures Valid(r1)
  {
  }

  const Empty := Registry([], map[], map[])

  /** What relations read of each registered model. */
  function Refs(headers: map<string, ModelHeader>): map<string, ModelRef> {
    map k | k in headers :: headers[k].Ref()
  }

  /** A model reference taken from the registry names a registered model, under its own name. */
  lemma {:induction false} RefsNamed(r: Registry, m: ModelRef)
    requires ByName(r) && m in Refs(r.headers).Values
    ensures m.name in r.headers && r.headers[m.name].Ref() == m
  {
    var k :| k in Refs(r.headers) && Refs(r.headers)[k] == m;
  }

  /** What wiring a relation needs of its counterpart: a single one is a registered model. */
  predicate Wirable(rel: RelationDefinition, headers: map<string, ModelHeader>) {
    rel.counterpart.Single? ==> rel.counterpart.model.name in headers
  }

  /** Relations built against the registry can be wired into it. */
  lemma {:induction false} RefsWirable(r: Registry, rels: seq<RelationDefinition>)
    requires ByName(r) && forall x :: x in rels ==> CounterpartsIn(x, Refs(r.headers))
    ensures forall x :: x in rels ==> Wirable(x, r.headers)
  {
    forall x | x in rels && x.counterpart.Single? ensures x.counterpart.model.name in r.headers {
      RefsNamed(r, x.counterpart.model);
    }
  }

  // ---- phase 1: parse every file and register its model ----

  /** The changing part of a model `handle` constructs (:128-138): the default and declared
    * properties, no relations, and the observer flag from the file and the mixins. */
  function InitialState(inf: Inflector, h: ModelHeader, spec: ModelSpec): (r: Result<ModelState, Error>)
    ensures r.Ok? <==> InitialProperties(inf, h.Ref(), spec.properties).Ok?
    ensures r.Ok? ==> r.value.relations == [] && |r.value.properties| >= 4 && r.value.properties[..4] == DefaultProperties(h.Ref())
    ensures r.Ok? ==> (r.value.hasObserver <==> (spec.observer == Some(true)
                                                 || exists m :: m in h.mixins && m.mixinType == Enums.GeolocationMixin))
  {
    match InitialProperties(inf, h.Ref(), spec.properties)
    case Err(e) => Err(e)
    case Ok(ps) =>
      var observer := spec.observer.GetOr(false);
      assert observer <==> spec.observer == Some(true);
      ObserverBeforeRelations(observer, h.mixins);
      Ok(ModelState(DetermineHasObserver(observer, [], h.mixins), ps, []))
  }

  /** One file's model as `handle` constructs it (:99-138): named as its file, no relations yet. */
  function ParseModel(inf: Inflector, input: ModelInput): (r: Result<(ModelHeader, ModelState), Error>)
    ensures r.Ok? ==> r.value.0.name == input.name && r.value.1.relations == []
  {
    var h :- ParseHeader(inf, input);
    var st :- InitialState(inf, h, input.spec);
    Ok((h, st))
  }

  /** The model is the parsed header with the initial state; either failing fails it. */
  lemma {:induction false} ParseModelParts(inf: Inflector, input: ModelInput)
    ensures ParseModel(inf, input).Ok? <==> ParseHeader(inf, input).Ok? && InitialState(inf, ParseHeader(inf, input).value, input.spec).Ok?
    ensures ParseModel(inf, input).Ok? ==>
      ParseModel(inf, input).value == (ParseHeader(inf, input).value, InitialState(inf, ParseHeader(inf, input).value, input.spec).value)
  {
  }

  /** `$this->allModel[$name] = $model`: a new name is appended, a known one keeps its slot and
    * its model is replaced. */
  function Register(r: Registry, h: ModelHeader, st: ModelState): (r1: Registry)
    ensures r1.headers == r.headers[h.name := h] && r1.states == r.states[h.name := st]
    ensures |r.order| <= |r1.order| && r1.order[..|r.order|] == r.order
  {
    var order := if h.name in r.headers then r.order else r.order + [h.name];
    assert order[..|r.order|] == r.order;
    Registry(order, r.headers[h.name := h], r.states[h.name := st])
  }

  /** Registering keeps the registry keyed by model name. */
  lemma {:induction false} RegisterValid(r: Registry, h: ModelHeader, st: ModelState)
    requires Valid(r) && UniqueKeys(st.relations, RelationName)
    ensures Valid(Register(r, h, st))
  {
    if h.name !in r.headers {
      assert h.name !in r.order;
      DistinctAppend(r.order, h.name);
      assert Register(r, h, st).order == r.order + [h.name];
    }
  }

  /** The model names of the files, as a set. */
  function Names(inputs: seq<ModelInput>): set<string>
    decreases |inputs|
  {
    if |inputs| == 0 then {} else Names(inputs[..|inputs| - 1]) + {inputs[|inputs| - 1].name}
  }

  /** `Names` holds exactly the files' model names. */
  lemma {:induction false} NamesOf(inputs: seq<ModelInput>, k: string)
    ensures k in Names(inputs) <==> exists i :: 0 <= i < |inputs| && inputs[i].name == k
    decreases |inputs|
  {
    if |inputs| > 0 {
      var init := inputs[..|inputs| - 1];
      NamesOf(init, k);
      assert forall i :: 0 <= i < |init| ==> init[i] == inputs[i];
    }
  }

  function ModelParser(inf: Inflector): ModelInput -> Result<(ModelHeader, ModelState), Error> {
    (input: ModelInput) => ParseModel(inf, input)
  }

  /** What phase 1 needs of the file parser: the model is named as its file and has no relations. */
  ghost predicate ParsesNamed(parse: ModelInput -> Result<(ModelHeader, ModelState), Error>) {
    forall x :: parse(x).Ok? ==> parse(x).value.0.name == x.name && parse(x).value.1.relations == []
  }

  /** Phase 1 (:64-139) with `parse` for `ParseModel`: every file in order; the first one
    * that fails aborts. */
  function Phase1(parse: ModelInput -> Result<(ModelHeader, ModelState), Error>, inputs: seq<ModelInput>): Result<Registry, Error>
    decreases |inputs|
  {
    if |inputs| == 0 then Ok(Empty)
    else
      var r1 :- Phase1(parse, inputs[..|inputs| - 1]);
      var m :- parse(inputs[|inputs| - 1]);
      Ok(Register(r1, m.0, m.1))
  }

  /** Phase 1 over one more file: that file's model registered, or its error. */
  lemma {:induction false} Phase1Step(parse: ModelInput -> Result<(ModelHeader, ModelState), Error>, inputs: seq<ModelInput>, i: nat)
    requires i < |inputs| && Phase1(parse, inputs[..i]).Ok?
    ensures parse(inputs[i]).Err? ==> Phase1(parse, inputs[..i + 1]) == Err(parse(inputs[i]).error)
    ensures parse(inputs[i]).Ok? ==>
      Phase1(parse, inputs[..i + 1]) == Ok(Register(Phase1(parse, inputs[..i]).value, parse(inputs[i]).value.0, parse(inputs[i]).value.1))
  {
    assert inputs[..i + 1][..i] == inputs[..i];
  }

  /** One more file of phase 1, from a registry `r` the files before it built: its error
    * ends phase 1, and otherwise it is registered on `r`. */
  lemma {:induction false} Phase1Next(parse: ModelInput -> Result<(ModelHeader, ModelState), Error>, inputs: seq<ModelInput>, i: nat, r: Registry)
    requires i < |inputs| && Phase1(parse, inputs[..i]) == Ok(r)
    ensures parse(inputs[i]).Err? ==> Phase1(parse, inputs) == Err(parse(inputs[i]).error)
    ensures parse(inputs[i]).Ok? ==>
      Phase1(parse, inputs[..i + 1]) == Ok(Register(r, parse(inputs[i]).value.0, parse(inputs[i]).value.1))
  {
    Phase1Step(parse, inputs, i);
    if parse(inputs[i]).Err? {
      Phase1Aborts(parse, inputs, i + 1);
    }
  }

  /** The first file that fails to parse decides phase 1: later files are never read. */
  lemma {:induction false} Phase1Aborts(parse: ModelInput -> Result<(ModelHeader, ModelState), Error>, inputs: seq<ModelInput>, j: nat)
    requires j <= |inputs| && Phase1(parse, inputs[..j]).Err?
    ensures Phase1(parse, inputs) == Phase1(parse, inputs[..j])
    decreases |inputs| - j
  {
    if j < |inputs| {
      var k := j + 1;
      assert inputs[..k][..j] == inputs[..j];
      Phase1Aborts(parse, inputs, k);
    } else {
      assert inputs[..j] == inputs;
    }
  }

  /** Phase 1 succeeds exactly when every file parses. */
  lemma {:induction false} Phase1Succeeds(parse: ModelInput -> Result<(ModelHeader, ModelState), Error>, inputs: seq<ModelInput>)
    ensures Phase1(parse, inputs).Ok? <==> forall i :: 0 <= i < |inputs| ==> parse(inputs[i]).Ok?
    decreases |inputs|
  {
    if |inputs| > 0 {
      var init := inputs[..|inputs| - 1];
      Phase1Succeeds(parse, init);
      assert forall i :: 0 <= i < |init| ==> init[i] == inputs[i];
    }
  }

  /** After phase 1 the registry is keyed by model name and no model has relations yet. */
  lemma {:induction false} Phase1Valid(parse: ModelInput -> Result<(ModelHeader, ModelState), Error>, inputs: seq<ModelInput>)
    requires ParsesNamed(parse) && Phase1(parse, inputs).Ok?
    ensures Valid(Phase1(parse, inputs).value)
    ensures forall k :: k in Phase1(parse, inputs).value.states ==> Phase1(parse, inputs).value.states[k].relations == []
    decreases |inputs|
  {
    if |inputs| > 0 {
      var init := inputs[..|inputs| - 1];
      Phase1Valid(parse, init);
      var m := parse(inputs[|inputs| - 1]).value;
      var r1 := Phase1(parse, init).value;
      assert Phase1(parse, inputs).value == Register(r1, m.0, m.1);
      RegisterValid(r1, m.0, m.1);
    }
  }

  /** After phase 1 the registry holds exactly the files' model names. */
  lemma {:induction false} Phase1Keys(parse: ModelInput -> Result<(ModelHeader, ModelState), Error>, inputs: seq<ModelInput>)
    requires ParsesNamed(parse) && Phase1(parse, inputs).Ok?
    ensures Phase1(parse, inputs).value.headers.Keys == Names(inputs)
    ensures forall i :: 0 <= i < |inputs| ==> inputs[i].name in Phase1(parse, inputs).value.headers
    decreases |inputs|
  {
    if |inputs| > 0 {
      var init := inputs[..|inputs| - 1];
      Phase1Keys(parse, init);
      var m := parse(inputs[|inputs| - 1]).value;
      var r1 := Phase1(parse, init).value;
      assert Phase1(parse, inputs).value == Register(r1, m.0, m.1);
      assert forall i :: 0 <= i < |init| ==> init[i] == inputs[i];
    }
  }

  /** A name defined by several files keeps the model of the last of them. */
  lemma {:induction false} Phase1LastWins(parse: ModelInput -> Result<(ModelHeader, ModelState), Error>, inputs: seq<ModelInput>, i: nat)
    requires ParsesNamed(parse) && Phase1(parse, inputs).Ok? && i < |inputs|
    requires forall j :: i < j < |inputs| ==> inputs[j].name != inputs[i].name
    ensures parse(inputs[i]).Ok? && inputs[i].name in Phase1(parse, inputs).value.headers
    ensures inputs[i].name in Phase1(parse, inputs).value.states
    ensures Phase1(parse, inputs).value.headers[inputs[i].name] == parse(inputs[i]).value.0
    ensures Phase1(parse, inputs).value.states[inputs[i].name] == parse(inputs[i]).value.1
    decreases |inputs|
  {
    var init := inputs[..|inputs| - 1];
    Phase1Keys(parse, inputs);
    Phase1Valid(parse, inputs);
    Phase1Succeeds(parse, inputs);
    var m := parse(inputs[|inputs| - 1]).value;
    assert Phase1(parse, inputs).value == Register(Phase1(parse, init).value, m.0, m.1);
    if i < |inputs| - 1 {
      assert init[i] == inputs[i];
      assert forall j :: i < j < |init| ==> init[j] == inputs[j];
      Phase1LastWins(parse, init, i);
    }
  }

  // ---- phase 2: relations ----

  /** The registry after the declared relation is stored and its foreign keys appended. */
  function Stored(inf: Inflector, r: Registry, n: string, rel: RelationDefinition): Registry
    requires n in r.states
  {
    var st := r.states[n];
    r.(states := r.states[n := st.(relations := Put(st.relations, RelationName, rel),
                                   properties := st.properties + Relations.GenerateAllForeignKeyProperty(inf, rel))])
  }

  /** The inverse relation of `rel`, when it asks for one, added to its counterpart model
    * unless that model already has a relation by its name (:160-165). */
  function AddCounter(inf: Inflector, r: Registry, rel: RelationDefinition): (r1: Result<Registry, Error>)
    requires ByName(r) && Wirable(rel, r.headers)
    ensures r1.Ok? ==> SameModels(r, r1.value)
  {
    match Relations.GenerateCounterRelationOrNull(inf, rel)
    case Err(e) => Err(e)
    case Ok(None) => Ok(r)
    case Ok(Some(c)) =>
      var m := c.owner.name;
      assert m in r.states;
      Ok(r.(states := r.states[m := r.states[m].(relations := PutIfAbsent(r.states[m].relations, c))]))
  }

  /** One relation of model `n` wired in (:146-166): an event relation other than the first
    * throws; otherwise the relation goes into `relations[name]`, its foreign-key properties are
    * appended, and its inverse, if any, is added to the counterpart unless that name is taken. */
  function WireRelation(inf: Inflector, r: Registry, n: string, rel: RelationDefinition, all: seq<RelationDefinition>): (r1: Result<Registry, Error>)
    requires ByName(r) && n in r.headers && Wirable(rel, r.headers)
    ensures r1.Ok? ==> SameModels(r, r1.value)
    ensures r1.Ok? ==> !SecondEvent(all, rel)
  {
    var first := RelationCollection.GetWithEventOrNull(all);
    if rel.isEvent && first.Some? && rel.name != first.value.name then
      Err(MultipleEventRelations(n, rel.name, first.value.name))
    else
      var r1 := Stored(inf, r, n, rel);
      assert r1.headers == r.headers && r1.states.Keys == r.states.Keys;
      AddCounter(inf, r1, rel)
  }

  /** Wiring one relation keeps every model's relations keyed by name: the relation is stored
    * under its name and the inverse only under a free one. */
  lemma {:induction false} WireRelationKeyed(inf: Inflector, r: Registry, n: string, rel: RelationDefinition, all: seq<RelationDefinition>)
    requires ByName(r) && n in r.headers && Wirable(rel, r.headers)
    requires KeyedStates(r.states) && WireRelation(inf, r, n, rel, all).Ok?
    ensures KeyedStates(WireRelation(inf, r, n, rel, all).value.states)
  {
    var r1 := Stored(inf, r, n, rel);
    StoredKeyed(inf, r, n, rel);
    match Relations.GenerateCounterRelationOrNull(inf, rel)
    case Ok(None) =>
    case Ok(Some(c)) =>
      AddIfAbsentKeyed(r1.states, c.owner.name, c);
  }

  /** Storing a relation under its name keeps relations keyed. */
  lemma {:induction false} StoredKeyed(inf: Inflector, r: Registry, n: string, rel: RelationDefinition)
    requires n in r.states
    ensures KeyedStates(r.states) ==> KeyedStates(Stored(inf, r, n, rel).states)
  {
    if KeyedStates(r.states) {
      PutUnique(r.states[n].relations, RelationName, rel);
      UpdateKeyed(r.states, n, Stored(inf, r, n, rel).states[n]);
    }
  }

  /** Adding an inverse relation only under a free name keeps relations keyed. */
  lemma {:induction false} AddIfAbsentKeyed(states: map<string, ModelState>, m: string, c: RelationDefinition)
    requires m in states
    ensures KeyedStates(states) ==> KeyedStates(states[m := states[m].(relations := PutIfAbsent(states[m].relations, c))])
  {
    if KeyedStates(states) {
      PutUnique(states[m].relations, RelationName, c);
      UpdateKeyed(states, m, states[m].(relations := PutIfAbsent(states[m].relations, c)));
    }
  }

  /** A second event relation is refused, naming it and the first event relation. */
  lemma {:induction false} WireRelationEvent(inf: Inflector, r: Registry, n: string, rel: RelationDefinition, all: seq<RelationDefinition>)
    requires ByName(r) && n in r.headers && Wirable(rel, r.headers)
    requires rel.isEvent && RelationCollection.GetWithEventOrNull(all).Some?
    requires rel.name != RelationCollection.GetWithEventOrNull(all).value.name
    ensures WireRelation(inf, r, n, rel, all) == Err(MultipleEventRelations(n, rel.name, RelationCollection.GetWithEventOrNull(all).value.name))
  {
  }

  /** What wiring one relation does to model `n`: the relation is stored under its name, even
    * over an inverse synthesized earlier, and its foreign-key properties are appended. */
  lemma {:induction false} WireRelationStores(inf: Inflector, r: Registry, n: string, rel: RelationDefinition, all: seq<RelationDefinition>)
    requires ByName(r) && n in r.headers && Wirable(rel, r.headers) && WireRelation(inf, r, n, rel, all).Ok?
    requires UniqueKeys(r.states[n].relations, RelationName)
    ensures n in WireRelation(inf, r, n, rel, all).value.states
    ensures Lookup(WireRelation(inf, r, n, rel, all).value.states[n].relations, RelationName, rel.name) == Some(rel)
    ensures WireRelation(inf, r, n, rel, all).value.states[n].properties == r.states[n].properties + Relations.GenerateAllForeignKeyProperty(inf, rel)
    ensures WireRelation(inf, r, n, rel, all).value.states[n].hasObserver == r.states[n].hasObserver
  {
    var st := r.states[n];
    var rs1 := Put(st.relations, RelationName, rel);
    LookupPut(st.relations, RelationName, rel, rel.name);
    PutUnique(st.relations, RelationName, rel);
    match Relations.GenerateCounterRelationOrNull(inf, rel)
    case Ok(None) =>
    case Ok(Some(c)) =>
      if c.owner.name == n {
        LookupPutIfAbsent(rs1, c, rel.name);
      }
  }

  /** The inverse relation, when there is one, ends up on the counterpart under its name, and
    * is added only when that name was free; no other model changes. */
  lemma {:induction false} WireRelationCounter(inf: Inflector, r: Registry, n: string, rel: RelationDefinition, all: seq<RelationDefinition>)
    requires ByName(r) && n in r.headers && Wirable(rel, r.headers) && WireRelation(inf, r, n, rel, all).Ok?
    ensures Relations.GenerateCounterRelationOrNull(inf, rel).Ok?
    ensures Relations.GenerateCounterRelationOrNull(inf, rel).value.Some? ==>
      var c := Relations.GenerateCounterRelationOrNull(inf, rel).value.value;
      && c.owner.name in r.headers
      && HasKey(WireRelation(inf, r, n, rel, all).value.states[c.owner.name].relations, RelationName, c.name)
      && (c.owner.name != n && HasKey(r.states[c.owner.name].relations, RelationName, c.name) ==>
          WireRelation(inf, r, n, rel, all).value.states[c.owner.name] == r.states[c.owner.name])
  {
    match Relations.GenerateCounterRelationOrNull(inf, rel)
    case Ok(None) =>
    case Ok(Some(c)) =>
  }

  /** Wiring a relation of `n` changes no model but `n` and the counterpart. */
  lemma {:induction false} WireRelationOthers(inf: Inflector, r: Registry, n: string, rel: RelationDefinition, all: seq<RelationDefinition>, k: string)
    requires ByName(r) && n in r.headers && Wirable(rel, r.headers) && WireRelation(inf, r, n, rel, all).Ok?
    requires k in r.states && k != n
    requires !(Relations.GenerateCounterRelationOrNull(inf, rel).Ok? && Relations.GenerateCounterRelationOrNull(inf, rel).value.Some?
               && k == Relations.GenerateCounterRelationOrNull(inf, rel).value.value.owner.name)
    ensures WireRelation(inf, r, n, rel, all).value.states[k] == r.states[k]
  {
    match Relations.GenerateCounterRelationOrNull(inf, rel)
    case Ok(None) =>
    case Ok(Some(c)) =>
  }

  /** Wiring `rels` in order, each against all of the model's relations `all`; the first
    * error aborts. */
  function WireRelations(inf: Inflector, r: Registry, n: string, rels: seq<RelationDefinition>, all: seq<RelationDefinition>): (r1: Result<Registry, Error>)
    requires ByName(r) && n in r.headers
    requires forall x :: x in rels ==> Wirable(x, r.headers)
    ensures r1.Ok? ==> SameModels(r, r1.value)
    ensures r1.Ok? ==> forall x :: x in rels ==> !SecondEvent(all, x)
    decreases |rels|
  {
    if |rels| == 0 then Ok(r)
    else
      var init := rels[..|rels| - 1];
      assert rels == init + [rels[|rels| - 1]];
      var r1 :- WireRelations(inf, r, n, init, all);
      WireRelation(inf, r1, n, rels[|rels| - 1], all)
  }

  /** Wiring keeps every model's relations keyed by name. */
  lemma {:induction false} WireRelationsKeyed(inf: Inflector, r: Registry, n: string, rels: seq<RelationDefinition>, all: seq<RelationDefinition>)
    requires ByName(r) && n in r.headers && forall x :: x in rels ==> Wirable(x, r.headers)
    requires KeyedStates(r.states) && WireRelations(inf, r, n, rels, all).Ok?
    ensures KeyedStates(WireRelations(inf, r, n, rels, all).value.states)
    decreases |rels|
  {
    if |rels| > 0 {
      var init := rels[..|rels| - 1];
      assert forall x :: x in init ==> x in rels;
      WireRelationsKeyed(inf, r, n, init, all);
      WireRelationKeyed(inf, WireRelations(inf, r, n, init, all).value, n, rels[|rels| - 1], all);
    }
  }

  /** Wiring one more relation: it is wired onto the earlier result. */
  lemma {:induction false} WireRelationsSnoc(inf: Inflector, r: Registry, n: string, rels: seq<RelationDefinition>, rel: RelationDefinition, all: seq<RelationDefinition>)
    requires ByName(r) && n in r.headers && (forall x :: x in rels ==> Wirable(x, r.headers)) && Wirable(rel, r.headers)
    requires WireRelations(inf, r, n, rels, all).Ok?
    ensures WireRelations(inf, r, n, rels + [rel], all) == WireRelation(inf, WireRelations(inf, r, n, rels, all).value, n, rel, all)
  {
    assert (rels + [rel])[..|rels|] == rels;
  }

  /** One more relation of model `n`, from the registry `cur` the relations before it built:
    * the wiring over one more relation is that relation wired on `cur`. */
  lemma {:induction false} WireRelationsNext(inf: Inflector, r: Registry, n: string, rels: seq<RelationDefinition>, i: nat, all: seq<RelationDefinition>, cur: Registry)
    requires ByName(r) && n in r.headers && (forall x :: x in rels ==> Wirable(x, r.headers)) && i < |rels|
    requires (forall x :: x in rels[..i] ==> Wirable(x, r.headers)) && WireRelations(inf, r, n, rels[..i], all) == Ok(cur)
    ensures ByName(cur) && n in cur.headers && Wirable(rels[i], cur.headers)
    ensures forall x :: x in rels[..i + 1] ==> Wirable(x, r.headers)
    ensures WireRelations(inf, r, n, rels[..i + 1], all) == WireRelation(inf, cur, n, rels[i], all)
  {
    assert rels[i] in rels;
    TakeNext(rels, i);
    WireRelationsSnoc(inf, r, n, rels[..i], rels[i], all);
  }

  /** The first relation that fails decides the wiring: later relations are never wired. */
  lemma {:induction false} WireRelationsStops(inf: Inflector, r: Registry, n: string, rels: seq<RelationDefinition>, more: seq<RelationDefinition>, all: seq<RelationDefinition>)
    requires ByName(r) && n in r.headers && forall x :: x in rels + more ==> Wirable(x, r.headers)
    requires WireRelations(inf, r, n, rels, all).Err?
    ensures WireRelations(inf, r, n, rels + more, all) == WireRelations(inf, r, n, rels, all)
    decreases |more|
  {
    if |more| == 0 {
      assert rels + more == rels;
    } else {
      var init := more[..|more| - 1];
      assert (rels + more)[..|rels + more| - 1] == rels + init;
      assert forall x :: x in rels + init ==> x in rels + more;
      WireRelationsStops(inf, r, n, rels, init, all);
    }
  }

  /** The first relation that fails, at position `j - 1`, decides the wiring of all of `rels`. */
  lemma {:induction false} WireRelationsStopsAt(inf: Inflector, r: Registry, n: string, rels: seq<RelationDefinition>, j: nat, all: seq<RelationDefinition>)
    requires ByName(r) && n in r.headers && (forall x :: x in rels ==> Wirable(x, r.headers)) && j <= |rels|
    requires (forall x :: x in rels[..j] ==> Wirable(x, r.headers)) && WireRelations(inf, r, n, rels[..j], all).Err?
    ensures WireRelations(inf, r, n, rels, all) == WireRelations(inf, r, n, rels[..j], all)
  {
    assert rels[..j] + rels[j..] == rels;
    WireRelationsStops(inf, r, n, rels[..j], rels[j..], all);
  }

  /** `rel` is an event relation that is not the model's first one. */
  predicate SecondEvent(all: seq<RelationDefinition>, rel: RelationDefinition) {
    rel.isEvent && RelationCollection.GetWithEventOrNull(all).Some?
    && rel.name != RelationCollection.GetWithEventOrNull(all).value.name
  }

  /** A model may have one event relation: once wiring succeeds, every event relation wired
    * carries the name of the first one. */
  lemma {:induction false} WireRelationsOneEvent(inf: Inflector, r: Registry, n: string, rels: seq<RelationDefinition>, all: seq<RelationDefinition>)
    requires ByName(r) && n in r.headers && forall x :: x in rels ==> Wirable(x, r.headers)
    requires WireRelations(inf, r, n, rels, all).Ok? && forall x :: x in rels ==> x in all
    ensures forall x :: x in rels && x.isEvent ==>
      RelationCollection.GetWithEventOrNull(all).Some? && x.name == RelationCollection.GetWithEventOrNull(all).value.name
  {
    forall x | x in rels && x.isEvent
      ensures RelationCollection.GetWithEventOrNull(all).Some? && x.name == RelationCollection.GetWithEventOrNull(all).value.name
    {
      assert !SecondEvent(all, x) && x in all;
    }
  }

  /** One model of phase 2 (:141-167): all its declared relations are built against the
    * registry first, so a missing counterpart aborts before any of them is wired. */
  function ResolveModel(inf: Inflector, r: Registry, n: string): (r1: Result<Registry, Error>)
    requires ByName(r) && n in r.headers
    ensures r1.Ok? ==> SameModels(r, r1.value)
  {
    var rels :- BuildRelations(inf, Refs(r.headers), r.headers[n].Ref(), r.headers[n].original.relations);
    RefsWirable(r, rels);
    WireRelations(inf, r, n, rels, rels)
  }

  /** Phase 2 (:141-168) over `names`, in order. */
  function Phase2(inf: Inflector, r: Registry, names: seq<string>): (r1: Result<Registry, Error>)
    requires ByName(r) && forall k :: k in names ==> k in r.headers
    ensures r1.Ok? ==> SameModels(r, r1.value)
    decreases |names|
  {
    if |names| == 0 then Ok(r)
    else
      var r1 :- Phase2(inf, r, names[..|names| - 1]);
      ResolveModel(inf, r1, names[|names| - 1])
  }

  /** Phase 2 over one more model: that model resolved on the earlier result. */
  lemma {:induction false} Phase2Snoc(inf: Inflector, r: Registry, names: seq<string>, n: string)
    requires ByName(r) && (forall k :: k in names ==> k in r.headers) && n in r.headers
    requires Phase2(inf, r, names).Ok?
    ensures Phase2(inf, r, names + [n]) == ResolveModel(inf, Phase2(inf, r, names).value, n)
  {
    assert (names + [n])[..|names|] == names;
  }

  /** The first model that fails to resolve decides phase 2: later models are never wired. */
  lemma {:induction false} Phase2Stops(inf: Inflector, r: Registry, names: seq<string>, more: seq<string>)
    requires ByName(r) && forall k :: k in names + more ==> k in r.headers
    requires Phase2(inf, r, names).Err?
    ensures Phase2(inf, r, names + more) == Phase2(inf, r, names)
    decreases |more|
  {
    if |more| == 0 {
      assert names + more == names;
    } else {
      var init := more[..|more| - 1];
      assert (names + more)[..|names + more| - 1] == names + init;
      assert forall k :: k in names + init ==> k in names + more;
      Phase2Stops(inf, r, names, init);
    }
  }

  /** The first model that fails, at position `j - 1`, decides phase 2 over all of `names`. */
  lemma {:induction false} Phase2StopsAt(inf: Inflector, r: Registry, names: seq<string>, j: nat)
    requires ByName(r) && (forall k :: k in names ==> k in r.headers) && j <= |names|
    requires (forall k :: k in names[..j] ==> k in r.headers) && Phase2(inf, r, names[..j]).Err?
    ensures Phase2(inf, r, names) == Phase2(inf, r, names[..j])
  {
    assert names[..j] + names[j..] == names;
    Phase2Stops(inf, r, names[..j], names[j..]);
  }

  /** One more model of phase 2, from the registry `cur` the models before it built: phase 2
    * over one more name is that model resolved on `cur`. */
  lemma {:induction false} Phase2Next(inf: Inflector, r: Registry, names: seq<string>, i: nat, cur: Registry)
    requires ByName(r) && (forall k :: k in names ==> k in r.headers) && i < |names|
    requires (forall k :: k in names[..i] ==> k in r.headers) && Phase2(inf, r, names[..i]) == Ok(cur)
    ensures ByName(cur) && names[i] in cur.headers && forall k :: k in names[..i + 1] ==> k in r.headers
    ensures Phase2(inf, r, names[..i + 1]) == ResolveModel(inf, cur, names[i])
  {
    assert names[i] in names;
    TakeNext(names, i);
    Phase2Snoc(inf, r, names[..i], names[i]);
  }

  lemma {:induction false} Phase2Keyed(inf: Inflector, r: Registry, names: seq<string>)
    requires ByName(r) && KeyedStates(r.states) && (forall k :: k in names ==> k in r.headers) && Phase2(inf, r, names).Ok?
    ensures KeyedStates(Phase2(inf, r, names).value.states)
    decreases |names|
  {
    if |names| > 0 {
      var init := names[..|names| - 1];
      assert forall k :: k in init ==> k in names;
      Phase2Keyed(inf, r, init);
      var r1 := Phase2(inf, r, init).value;
      var n := names[|names| - 1];
      var rels := BuildRelations(inf, Refs(r1.headers), r1.headers[n].Ref(), r1.headers[n].original.relations).value;
      RefsWirable(r1, rels);
      WireRelationsKeyed(inf, r1, n, rels, rels);
    }
  }

  /** Phase 2 keeps the registry valid: relation names stay unique on every model. */
  lemma {:induction false} Phase2Valid(inf: Inflector, r: Registry, names: seq<string>)
    requires Valid(r) && (forall k :: k in names ==> k in r.headers) && Phase2(inf, r, names).Ok?
    ensures Valid(Phase2(inf, r, names).value)
  {
    Phase2Keyed(inf, r, names);
    SameModelsValid(r, Phase2(inf, r, names).value);
  }

  // ---- selection, prefix check, mixins, ordering ----

  /** The `only` argument (:170-181): a truthy name selects that model, or fails when it is not
    * registered; anything else selects every model in registry order. */
  function Select(r: Registry, only: Option<string>): (sel: Result<seq<string>, Error>)
    ensures sel.Err? <==> only.Some? && Truthy(only.value) && only.value !in r.headers
    ensures sel.Err? ==> sel.error == ModelNotFound(only.value)
    ensures sel.Ok? && only.Some? && Truthy(only.value) ==> sel.value == [only.value]
    ensures sel.Ok? && !(only.Some? && Truthy(only.value)) ==> sel.value == r.order
  {
    if only.Some? && Truthy(only.value) then
      if only.value in r.headers then Ok([only.value]) else Err(ModelNotFound(only.value))
    else Ok(r.order)
  }

  /** Every registered model's prefix, in registry order. */
  function Prefixes(r: Registry): (ps: seq<string>)
    requires forall k :: k in r.order ==> k in r.headers
    ensures |ps| == |r.order| && forall i :: 0 <= i < |r.order| ==> ps[i] == r.headers[r.order[i]].ulidPrefix
  {
    seq(|r.order|, i requires 0 <= i < |r.order| => r.headers[r.order[i]].ulidPrefix)
  }

  /** `$this->allModel['User']` as a reference, when registered. */
  function UserRef(r: Registry): Option<ModelRef> {
    if "User" in r.headers then Some(r.headers["User"].Ref()) else None
  }

  /** A REVIEW mixin keeps relation names unique: it appends only a name not yet taken. */
  lemma {:induction false} ApplyMixinKeepsKeys(env: Environment, h: ModelHeader, user: Option<ModelRef>, st: ModelState, m: MixinDefinition)
    requires UniqueKeys(st.relations, RelationName) && ApplyMixin(env, h, user, st, m).Ok?
    ensures UniqueKeys(ApplyMixin(env, h, user, st, m).value.relations, RelationName)
  {
    if m.mixinType == Enums.Review {
      PutUnique(st.relations, RelationName, ReviewRelation(h.Ref(), user.value));
    }
  }

  lemma {:induction false} ApplyMixinsKeepKeys(env: Environment, h: ModelHeader, user: Option<ModelRef>, st: ModelState, ms: seq<MixinDefinition>)
    requires UniqueKeys(st.relations, RelationName) && ApplyMixins(env, h, user, st, ms).Ok?
    ensures UniqueKeys(ApplyMixins(env, h, user, st, ms).value.relations, RelationName)
    decreases |ms|
  {
    if |ms| > 0 {
      ApplyMixinsKeepKeys(env, h, user, st, ms[..|ms| - 1]);
      ApplyMixinKeepsKeys(env, h, user, ApplyMixins(env, h, user, st, ms[..|ms| - 1]).value, ms[|ms| - 1]);
    }
  }

  /** Phase 3 (:185-187): the mixins of each selected model. */
  function AddAllMixins(env: Environment, r: Registry, sel: seq<string>): (r1: Result<Registry, Error>)
    requires ByName(r) && forall k :: k in sel ==> k in r.headers
    ensures r1.Ok? ==> SameModels(r, r1.value)
    decreases |sel|
  {
    if |sel| == 0 then Ok(r)
    else
      var r1 :- AddAllMixins(env, r, sel[..|sel| - 1]);
      var n := sel[|sel| - 1];
      var st :- ApplyMixins(env, r1.headers[n], UserRef(r1), r1.states[n], r1.headers[n].mixins);
      Ok(r1.(states := r1.states[n := st]))
  }

  /** Phase 3 over one more model: its mixins applied on the earlier result. */
  lemma {:induction false} AddAllMixinsSnoc(env: Environment, r: Registry, sel: seq<string>, n: string)
    requires ByName(r) && (forall k :: k in sel ==> k in r.headers) && n in r.headers
    requires AddAllMixins(env, r, sel).Ok?
    ensures var r1 := AddAllMixins(env, r, sel).value;
            && UserRef(r1) == UserRef(r)
            && AddAllMixins(env, r, sel + [n])
               == match ApplyMixins(env, r.headers[n], UserRef(r), r1.states[n], r.headers[n].mixins)
                  case Err(e) => Err(e)
                  case Ok(st) => Ok(r1.(states := r1.states[n := st]))
  {
    assert (sel + [n])[..|sel|] == sel;
  }

  /** The first model whose mixins fail decides phase 3. */
  lemma {:induction false} AddAllMixinsStops(env: Environment, r: Registry, sel: seq<string>, more: seq<string>)
    requires ByName(r) && forall k :: k in sel + more ==> k in r.headers
    requires AddAllMixins(env, r, sel).Err?
    ensures AddAllMixins(env, r, sel + more) == AddAllMixins(env, r, sel)
    decreases |more|
  {
    if |more| == 0 {
      assert sel + more == sel;
    } else {
      var init := more[..|more| - 1];
      assert (sel + more)[..|sel + more| - 1] == sel + init;
      assert forall k :: k in sel + init ==> k in sel + more;
      AddAllMixinsStops(env, r, sel, init);
    }
  }

  /** The first model whose mixins fail, at position `j - 1`, decides phase 3 over all of `sel`. */
  lemma {:induction false} AddAllMixinsStopsAt(env: Environment, r: Registry, sel: seq<string>, j: nat)
    requires ByName(r) && (forall k :: k in sel ==> k in r.headers) && j <= |sel|
    requires (forall k :: k in sel[..j] ==> k in r.headers) && AddAllMixins(env, r, sel[..j]).Err?
    ensures AddAllMixins(env, r, sel) == AddAllMixins(env, r, sel[..j])
  {
    assert sel[..j] + sel[j..] == sel;
    AddAllMixinsStops(env, r, sel[..j], sel[j..]);
  }

  lemma {:induction false} AddAllMixinsKeyed(env: Environment, r: Registry, sel: seq<string>)
    requires ByName(r) && KeyedStates(r.states) && (forall k :: k in sel ==> k in r.headers) && AddAllMixins(env, r, sel).Ok?
    ensures KeyedStates(AddAllMixins(env, r, sel).value.states)
    decreases |sel|
  {
    if |sel| > 0 {
      var init := sel[..|sel| - 1];
      AddAllMixinsLast(env, r, sel);
      AddAllMixinsKeyed(env, r, init);
      var r1 := AddAllMixins(env, r, init).value;
      var n := sel[|sel| - 1];
      ApplyMixinsKeepKeys(env, r.headers[n], UserRef(r), r1.states[n], r.headers[n].mixins);
      UpdateKeyed(r1.states, n, ApplyMixins(env, r.headers[n], UserRef(r), r1.states[n], r.headers[n].mixins).value);
    }
  }

  /** Phase 3 keeps the registry valid: a REVIEW mixin adds only a free relation name. */
  lemma {:induction false} AddAllMixinsValid(env: Environment, r: Registry, sel: seq<string>)
    requires Valid(r) && (forall k :: k in sel ==> k in r.headers) && AddAllMixins(env, r, sel).Ok?
    ensures Valid(AddAllMixins(env, r, sel).value)
  {
    AddAllMixinsKeyed(env, r, sel);
    SameModelsValid(r, AddAllMixins(env, r, sel).value);
  }

  /** Phase 4 (:189-192): each selected model's properties put in `order`, then its title
    * attributes checked. */
  function OrderAll(r: Registry, sel: seq<string>): (r1: Result<Registry, Error>)
    requires ByName(r) && forall k :: k in sel ==> k in r.headers
    ensures r1.Ok? ==> SameModels(r, r1.value)
    decreases |sel|
  {
    if |sel| == 0 then Ok(r)
    else
      var r1 :- OrderAll(r, sel[..|sel| - 1]);
      var n := sel[|sel| - 1];
      var ps := Order(r1.states[n].properties);
      match ValidateTitleAttributes(n, r1.headers[n].titleAttributes, ps)
      case Fail(e) => Err(e)
      case Pass => Ok(r1.(states := r1.states[n := r1.states[n].(properties := ps)]))
  }

  /** Phase 3 leaves a model outside the selection as it was. */
  lemma {:induction false} AddAllMixinsOutside(env: Environment, r: Registry, sel: seq<string>, k: string)
    requires ByName(r) && (forall x :: x in sel ==> x in r.headers) && AddAllMixins(env, r, sel).Ok?
    requires k in r.states && k !in sel
    ensures AddAllMixins(env, r, sel).value.states[k] == r.states[k]
    decreases |sel|
  {
    if |sel| > 0 {
      assert k !in sel[..|sel| - 1] && k != sel[|sel| - 1];
      AddAllMixinsOutside(env, r, sel[..|sel| - 1], k);
    }
  }

  /** The last step of phase 3, unfolded. */
  lemma {:induction false} AddAllMixinsLast(env: Environment, r: Registry, sel: seq<string>)
    requires ByName(r) && (forall x :: x in sel ==> x in r.headers) && AddAllMixins(env, r, sel).Ok? && |sel| > 0
    ensures forall x :: x in sel[..|sel| - 1] ==> x in r.headers
    ensures AddAllMixins(env, r, sel[..|sel| - 1]).Ok?
    ensures var r1 := AddAllMixins(env, r, sel[..|sel| - 1]).value;
            var n := sel[|sel| - 1];
            && UserRef(r1) == UserRef(r)
            && ApplyMixins(env, r.headers[n], UserRef(r), r1.states[n], r.headers[n].mixins).Ok?
            && AddAllMixins(env, r, sel).value
               == r1.(states := r1.states[n := ApplyMixins(env, r.headers[n], UserRef(r), r1.states[n], r.headers[n].mixins).value])
  {
    assert forall x :: x in sel[..|sel| - 1] ==> x in sel;
  }

  /** Phase 3 gives each selected model its mixins, applied once, over its phase-2 state. */
  lemma {:induction false} AddAllMixinsInside(env: Environment, r: Registry, sel: seq<string>, k: string)
    requires ByName(r) && (forall x :: x in sel ==> x in r.headers) && AddAllMixins(env, r, sel).Ok?
    requires Distinct(sel) && k in sel
    ensures ApplyMixins(env, r.headers[k], UserRef(r), r.states[k], r.headers[k].mixins).Ok?
    ensures AddAllMixins(env, r, sel).value.states[k] == ApplyMixins(env, r.headers[k], UserRef(r), r.states[k], r.headers[k].mixins).value
    decreases |sel|
  {
    var init := sel[..|sel| - 1];
    DistinctInit(sel, k);
    if k == sel[|sel| - 1] {
      AddAllMixinsAtLast(env, r, sel);
    } else {
      AddAllMixinsBeforeLast(env, r, sel, k);
      AddAllMixinsInside(env, r, init, k);
    }
  }

  /** The last model of the selection, not met before, gets its mixins over its phase-2 state. */
  lemma {:induction false} AddAllMixinsAtLast(env: Environment, r: Registry, sel: seq<string>)
    requires ByName(r) && (forall x :: x in sel ==> x in r.headers) && AddAllMixins(env, r, sel).Ok?
    requires |sel| > 0 && sel[|sel| - 1] !in sel[..|sel| - 1]
    ensures var k := sel[|sel| - 1];
            && ApplyMixins(env, r.headers[k], UserRef(r), r.states[k], r.headers[k].mixins).Ok?
            && AddAllMixins(env, r, sel).value.states[k] == ApplyMixins(env, r.headers[k], UserRef(r), r.states[k], r.headers[k].mixins).value
  {
    AddAllMixinsLast(env, r, sel);
    AddAllMixinsOutside(env, r, sel[..|sel| - 1], sel[|sel| - 1]);
  }

  /** A model before the last one of the selection is where the earlier steps of phase 3 left it. */
  lemma {:induction false} AddAllMixinsBeforeLast(env: Environment, r: Registry, sel: seq<string>, k: string)
    requires ByName(r) && (forall x :: x in sel ==> x in r.headers) && AddAllMixins(env, r, sel).Ok?
    requires |sel| > 0 && k != sel[|sel| - 1] && k in r.states
    ensures forall x :: x in sel[..|sel| - 1] ==> x in r.headers
    ensures AddAllMixins(env, r, sel[..|sel| - 1]).Ok?
    ensures AddAllMixins(env, r, sel).value.states[k] == AddAllMixins(env, r, sel[..|sel| - 1]).value.states[k]
  {
    assert forall x :: x in sel[..|sel| - 1] ==> x in sel;
  }

  /** Phase 4 over one more model: its properties ordered and its titles checked. */
  lemma {:induction false} OrderAllSnoc(r: Registry, sel: seq<string>, n: string)
    requires ByName(r) && (forall k :: k in sel ==> k in r.headers) && n in r.headers
    requires OrderAll(r, sel).Ok?
    ensures var r1 := OrderAll(r, sel).value;
            var ps := Order(r1.states[n].properties);
            OrderAll(r, sel + [n])
            == match ValidateTitleAttributes(n, r.headers[n].titleAttributes, ps)
               case Fail(e) => Err(e)
               case Pass => Ok(r1.(states := r1.states[n := r1.states[n].(properties := ps)]))
  {
    assert (sel + [n])[..|sel|] == sel;
  }

  /** The first model that fails its title check decides phase 4. */
  lemma {:induction false} OrderAllStops(r: Registry, sel: seq<string>, more: seq<string>)
    requires ByName(r) && forall k :: k in sel + more ==> k in r.headers
    requires OrderAll(r, sel).Err?
    ensures OrderAll(r, sel + more) == OrderAll(r, sel)
    decreases |more|
  {
    if |more| == 0 {
      assert sel + more == sel;
    } else {
      var init := more[..|more| - 1];
      assert (sel + more)[..|sel + more| - 1] == sel + init;
      assert forall k :: k in sel + init ==> k in sel + more;
      OrderAllStops(r, sel, init);
    }
  }

  /** The first model that fails its title check, at position `j - 1`, decides phase 4 over all of `sel`. */
  lemma {:induction false} OrderAllStopsAt(r: Registry, sel: seq<string>, j: nat)
    requires ByName(r) && (forall k :: k in sel ==> k in r.headers) && j <= |sel|
    requires (forall k :: k in sel[..j] ==> k in r.headers) && OrderAll(r, sel[..j]).Err?
    ensures OrderAll(r, sel) == OrderAll(r, sel[..j])
  {
    assert sel[..j] + sel[j..] == sel;
    OrderAllStops(r, sel[..j], sel[j..]);
  }

  lemma {:induction false} OrderAllKeyed(r: Registry, sel: seq<string>)
    requires ByName(r) && KeyedStates(r.states) && (forall k :: k in sel ==> k in r.headers) && OrderAll(r, sel).Ok?
    ensures KeyedStates(OrderAll(r, sel).value.states)
    decreases |sel|
  {
    if |sel| > 0 {
      var init := sel[..|sel| - 1];
      OrderAllLast(r, sel);
      OrderAllKeyed(r, init);
      var r1 := OrderAll(r, init).value;
      var n := sel[|sel| - 1];
      UpdateKeyed(r1.states, n, r1.states[n].(properties := Order(r1.states[n].properties)));
    }
  }

  /** Phase 4 keeps the registry valid: it touches no relation. */
  lemma {:induction false} OrderAllValid(r: Registry, sel: seq<string>)
    requires Valid(r) && (forall k :: k in sel ==> k in r.headers) && OrderAll(r, sel).Ok?
    ensures Valid(OrderAll(r, sel).value)
  {
    OrderAllKeyed(r, sel);
    SameModelsValid(r, OrderAll(r, sel).value);
  }

  /** Phase 4 leaves a model outside the selection as it was. */
  lemma {:induction false} OrderAllOutside(r: Registry, sel: seq<string>, k: string)
    requires ByName(r) && (forall x :: x in sel ==> x in r.headers) && OrderAll(r, sel).Ok?
    requires k in r.states && k !in sel
    ensures OrderAll(r, sel).value.states[k] == r.states[k]
    decreases |sel|
  {
    if |sel| > 0 {
      assert k !in sel[..|sel| - 1] && k != sel[|sel| - 1];
      OrderAllOutside(r, sel[..|sel| - 1], k);
    }
  }

  /** The last step of phase 4, unfolded. */
  lemma {:induction false} OrderAllLast(r: Registry, sel: seq<string>)
    requires ByName(r) && (forall x :: x in sel ==> x in r.headers) && OrderAll(r, sel).Ok? && |sel| > 0
    ensures forall x :: x in sel[..|sel| - 1] ==> x in r.headers
    ensures OrderAll(r, sel[..|sel| - 1]).Ok?
    ensures var r1 := OrderAll(r, sel[..|sel| - 1]).value;
            var n := sel[|sel| - 1];
            && ValidateTitleAttributes(n, r1.headers[n].titleAttributes, Order(r1.states[n].properties)) == Pass
            && OrderAll(r, sel).value == r1.(states := r1.states[n := r1.states[n].(properties := Order(r1.states[n].properties))])
  {
    assert forall x :: x in sel[..|sel| - 1] ==> x in sel;
  }

  /** The last model of the selection, when it occurs only there, is ordered and checked. */
  lemma {:induction false} OrderAllAtLast(r: Registry, sel: seq<string>)
    requires ByName(r) && (forall x :: x in sel ==> x in r.headers) && OrderAll(r, sel).Ok?
    requires |sel| > 0 && sel[|sel| - 1] !in sel[..|sel| - 1]
    ensures var k := sel[|sel| - 1];
            && OrderAll(r, sel).value.states[k] == r.states[k].(properties := Order(r.states[k].properties))
            && ValidateTitleAttributes(k, r.headers[k].titleAttributes, Order(r.states[k].properties)) == Pass
  {
    OrderAllLast(r, sel);
    OrderAllOutside(r, sel[..|sel| - 1], sel[|sel| - 1]);
  }

  /** A model before the last one of the selection is where the earlier steps left it. */
  lemma {:induction false} OrderAllBeforeLast(r: Registry, sel: seq<string>, k: string)
    requires ByName(r) && (forall x :: x in sel ==> x in r.headers) && OrderAll(r, sel).Ok?
    requires |sel| > 0 && k != sel[|sel| - 1] && k in r.states
    ensures forall x :: x in sel[..|sel| - 1] ==> x in r.headers
    ensures OrderAll(r, sel[..|sel| - 1]).Ok?
    ensures OrderAll(r, sel).value.states[k] == OrderAll(r, sel[..|sel| - 1]).value.states[k]
  {
    assert forall x :: x in sel[..|sel| - 1] ==> x in sel;
  }

  /** Phase 4 orders each selected model's properties and checks its title attributes. */
  lemma {:induction false} OrderAllInside(r: Registry, sel: seq<string>, k: string)
    requires ByName(r) && (forall x :: x in sel ==> x in r.headers) && OrderAll(r, sel).Ok?
    requires Distinct(sel) && k in sel
    ensures OrderAll(r, sel).value.states[k] == r.states[k].(properties := Order(r.states[k].properties))
    ensures ValidateTitleAttributes(k, r.headers[k].titleAttributes, Order(r.states[k].properties)) == Pass
    decreases |sel|
  {
    var init := sel[..|sel| - 1];
    DistinctInit(sel, k);
    if k == sel[|sel| - 1] {
      OrderAllAtLast(r, sel);
    } else {
      OrderAllBeforeLast(r, sel, k);
      OrderAllInside(r, init, k);
    }
  }

  /** So each selected model ends with its properties ranked inherited, relation-derived,
    * other, as a reordering of what it had. */
  lemma {:induction false} OrderAllRanked(r: Registry, sel: seq<string>, k: string)
    requires ByName(r) && (forall x :: x in sel ==> x in r.headers) && OrderAll(r, sel).Ok?
    requires Distinct(sel) && k in sel
    ensures SortedBy(OrderAll(r, sel).value.states[k].properties, Rank)
    ensures multiset(OrderAll(r, sel).value.states[k].properties) == multiset(r.states[k].properties)
  {
    OrderAllInside(r, sel, k);
  }

  /** Phases 1 and 2 (:64-168): every file's model registered, then every model's relations
    * wired, in registry order. */
  function Resolve(inf: Inflector, inputs: seq<ModelInput>): (r: Result<Registry, Error>)
    ensures r.Ok? ==> ByName(r.value) && forall k :: k in r.value.order ==> k in r.value.headers
  {
    var r1 :- Phase1(ModelParser(inf), inputs);
    Phase1Valid(ModelParser(inf), inputs);
    Phase2(inf, r1, r1.order)
  }

  /** After phase 2 the registry is valid and holds the files' models, with the fixed parts
    * phase 1 parsed. */
  lemma {:induction false} ResolveValid(inf: Inflector, inputs: seq<ModelInput>)
    requires Resolve(inf, inputs).Ok?
    ensures Phase1(ModelParser(inf), inputs).Ok?
    ensures Valid(Resolve(inf, inputs).value)
    ensures Resolve(inf, inputs).value.headers == Phase1(ModelParser(inf), inputs).value.headers
    ensures Resolve(inf, inputs).value.headers.Keys == Names(inputs)
  {
    var parse := ModelParser(inf);
    Phase1Valid(parse, inputs);
    Phase1Keys(parse, inputs);
    var r1 := Phase1(parse, inputs).value;
    Phase2Valid(inf, r1, r1.order);
  }

  /** Phases 3 and 4 over a selection (:185-192): every selected model's mixins, then every
    * selected model's ordering and title check. */
  function MixAndOrder(env: Environment, r2: Registry, sel: seq<string>): (r: Result<Registry, Error>)
    requires ByName(r2) && forall k :: k in sel ==> k in r2.headers
    ensures r.Ok? ==> SameModels(r2, r.value)
  {
    var r3 :- AddAllMixins(env, r2, sel);
    OrderAll(r3, sel)
  }

  /** What `handle` does once every model is wired (:170-192): the `only` selection, the
    * prefix check over every model, and phases 3 and 4 over the selection. */
  function HandleResolved(env: Environment, r2: Registry, only: Option<string>): (r: Result<Registry, Error>)
    requires ByName(r2) && forall k :: k in r2.order ==> k in r2.headers
  {
    var sel :- Select(r2, only);
    match UlidPrefix.ValidateUlidPrefixUnique(env.ulidPrefixCheckDisabled, Prefixes(r2))
    case Fail(e) => Err(e)
    case Pass => MixAndOrder(env, r2, sel)
  }

  /** The resolution phases of `handle` (:62-191), without the per-model generator calls that
    * follow them (:193-241): no files is an error; then phases 1 and 2,
    * and the rest over the wired registry. */
  function Handle(env: Environment, inputs: seq<ModelInput>, only: Option<string>): (r: Result<Registry, Error>)
    ensures |inputs| == 0 ==> r == Err(NoDefinitionFiles)
    ensures |inputs| > 0 && Resolve(env.inflector, inputs).Err? ==> r == Err(Resolve(env.inflector, inputs).error)
    ensures |inputs| > 0 && Resolve(env.inflector, inputs).Ok? ==> r == HandleResolved(env, Resolve(env.inflector, inputs).value, only)
  {
    if |inputs| == 0 then Err(NoDefinitionFiles)
    else
      var r2 :- Resolve(env.inflector, inputs);
      HandleResolved(env, r2, only)
  }

  /** After a successful run the registry is still valid, holds the same models, and no two
    * models share a prefix unless the check is off. */
  lemma {:induction false} HandleResolvedValid(env: Environment, r2: Registry, only: Option<string>)
    requires Valid(r2) && HandleResolved(env, r2, only).Ok?
    ensures Valid(HandleResolved(env, r2, only).value)
    ensures HandleResolved(env, r2, only).value.headers == r2.headers
    ensures !env.ulidPrefixCheckDisabled ==> Distinct(Prefixes(HandleResolved(env, r2, only).value))
  {
    var sel := Select(r2, only).value;
    assert UlidPrefix.ValidateUlidPrefixUnique(env.ulidPrefixCheckDisabled, Prefixes(r2)) == Pass;
    AddAllMixinsValid(env, r2, sel);
    var r3 := AddAllMixins(env, r2, sel).value;
    OrderAllValid(r3, sel);
  }

  /** A successful run leaves a valid registry of exactly the files' models, with the fixed
    * parts phase 1 parsed and no two models sharing a prefix unless the check is off. */
  lemma {:induction false} HandleValid(env: Environment, inputs: seq<ModelInput>, only: Option<string>)
    requires Handle(env, inputs, only).Ok?
    ensures Resolve(env.inflector, inputs).Ok?
    ensures Valid(Handle(env, inputs, only).value)
    ensures Handle(env, inputs, only).value.headers == Resolve(env.inflector, inputs).value.headers
    ensures Handle(env, inputs, only).value.headers.Keys == Names(inputs)
    ensures !env.ulidPrefixCheckDisabled ==> Distinct(Prefixes(Handle(env, inputs, only).value))
  {
    ResolveValid(env.inflector, inputs);
    HandleResolvedValid(env, Resolve(env.inflector, inputs).value, only);
  }

  /** A truthy `only` that names no model fails before the prefix check. */
  lemma {:induction false} HandleModelNotFound(env: Environment, r2: Registry, name: string)
    requires ByName(r2) && (forall k :: k in r2.order ==> k in r2.headers)
    requires Truthy(name) && name !in r2.headers
    ensures HandleResolved(env, r2, Some(name)) == Err(ModelNotFound(name))
  {
  }

  /** Two models sharing a prefix fail the run even when only one of them is selected. */
  lemma {:induction false} HandlePrefixClash(env: Environment, r2: Registry, only: Option<string>)
    requires ByName(r2) && (forall k :: k in r2.order ==> k in r2.headers) && Select(r2, only).Ok?
    requires !env.ulidPrefixCheckDisabled && !Distinct(Prefixes(r2))
    ensures HandleResolved(env, r2, only) == Err(UlidPrefixesNotUnique)
  {
  }

  /** Phases 3 and 4 give each selected model its mixins, then order its properties, and its
    * title attributes pass the check. */
  lemma {:induction false} HandleSelected(env: Environment, r2: Registry, only: Option<string>, k: string)
    requires Valid(r2) && HandleResolved(env, r2, only).Ok?
    requires Select(r2, only).Ok? && k in Select(r2, only).value
    ensures k in r2.headers
    ensures var st := ApplyMixins(env, r2.headers[k], UserRef(r2), r2.states[k], r2.headers[k].mixins);
            && st.Ok?
            && HandleResolved(env, r2, only).value.states[k] == st.value.(properties := Order(st.value.properties))
            && ValidateTitleAttributes(k, r2.headers[k].titleAttributes, Order(st.value.properties)) == Pass
  {
    var sel := Select(r2, only).value;
    assert Distinct(sel) && forall x :: x in sel ==> x in r2.headers;
    AddAllMixinsInside(env, r2, sel, k);
    var r3 := AddAllMixins(env, r2, sel).value;
    OrderAllInside(r3, sel, k);
  }

  /** A model outside the selection keeps its phase-2 state. */
  lemma {:induction false} HandleUnselected(env: Environment, r2: Registry, only: Option<string>, k: string)
    requires Valid(r2) && HandleResolved(env, r2, only).Ok?
    requires Select(r2, only).Ok? && k !in Select(r2, only).value && k in r2.states
    ensures HandleResolved(env, r2, only).value.states[k] == r2.states[k]
  {
    var sel := Select(r2, only).value;
    AddAllMixinsOutside(env, r2, sel, k);
    var r3 := AddAllMixins(env, r2, sel).value;
    OrderAllOutside(r3, sel, k);
  }

}
