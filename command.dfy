/** `GeneratorCommand` (src/Generator/Command/GeneratorCommand.php) as an object: the
  * registry `allModel` maps each model name to a `ModelDefinition` object, and `handle`'s
  * phases fill it and update those objects in place. Each method is proved to leave the
  * registry in the state the matching function of `Resolution` computes. */
module Command {
  import opened Wrappers
  import opened Text
  import opened Seqs
  import opened Keyed
  import opened Enums
  import opened Errors
  import opened Specs
  import opened Collaborators
  import opened Definitions
  import opened PropertyCollection
  import opened Models
  import opened Parsing
  import opened Mixins
  import opened Resolution
  import opened Sorting
  import Relations
  import RelationCollection
  import UlidPrefix

  /** Registry `r` with model `n` in state `st`. */
  function WithState(r: Registry, n: string, st: ModelState): Registry {
    r.(states := r.states[n := st])
  }

  lemma {:induction false} WithStateSame(r: Registry, n: string)
    requires n in r.states
    ensures WithState(r, n, r.states[n]) == r
  {
    assert r.states[n := r.states[n]] == r.states;
  }

  lemma {:induction false} WithStateTwice(r: Registry, n: string, a: ModelState, b: ModelState)
    ensures WithState(r, n, a).states[n] == a
    ensures WithState(WithState(r, n, a), n, b) == WithState(r, n, b)
  {
    assert r.states[n := a][n := b] == r.states[n := b];
  }

  /** Outcome `o` and registry `r1` are where a step of model `n` of `r` that computes `out`
    * leads: it passes exactly when `out` is a state, which `n` then holds, and otherwise
    * fails with `out`'s error. */
  predicate Stepped(o: Outcome<Error>, out: Result<ModelState, Error>, r: Registry, n: string, r1: Registry) {
    && (o.Pass? <==> out.Ok?)
    && (o.Pass? ==> r1 == WithState(r, n, out.value))
    && (o.Fail? ==> out == Err(o.error))
  }

  /** Changing one model's state keeps the registry's models, their order and `User`. */
  lemma {:induction false} WithStateParts(r: Registry, n: string, st: ModelState)
    ensures WithState(r, n, st).headers == r.headers && WithState(r, n, st).order == r.order
    ensures WithState(r, n, st).states[n] == st && UserRef(WithState(r, n, st)) == UserRef(r)
  {
  }

  /** `Resolution.Stored` is the relation stored first, then the foreign keys appended. */
  lemma {:induction false} StoredSteps(inf: Inflector, r: Registry, n: string, rel: RelationDefinition)
    requires n in r.states
    ensures var st1 := r.states[n].(relations := Put(r.states[n].relations, RelationName, rel));
            Stored(inf, r, n, rel)
            == WithState(WithState(r, n, st1), n, st1.(properties := st1.properties + Relations.GenerateAllForeignKeyProperty(inf, rel)))
  {
    var st1 := r.states[n].(relations := Put(r.states[n].relations, RelationName, rel));
    WithStateTwice(r, n, st1, st1.(properties := st1.properties + Relations.GenerateAllForeignKeyProperty(inf, rel)));
  }

  /** The reviewer relation of model `n` is added as `addRelation` adds it, and then its
    * foreign keys are appended. */
  lemma {:induction false} ReviewRelationsSteps(inf: Inflector, r: Registry, n: string, user: ModelRef)
    requires ByName(r) && n in r.headers
    ensures var st := r.states[n];
            var rel := ReviewRelation(r.headers[n].Ref(), user);
            var added := AddedRelation(n, st.relations, rel);
            && (added.Err? ==> ReviewRelations(inf, r.headers[n], Some(user), st) == Err(added.error))
            && (added.Ok? ==> ReviewRelations(inf, r.headers[n], Some(user), st)
                               == Ok(st.(relations := added.value).(properties := st.properties + Relations.GenerateAllForeignKeyProperty(inf, rel))))
  {
  }

  /** The registry `all` as a value: every model's fixed and changing parts. */
  ghost function SnapOf(order: seq<string>, all: map<string, ModelDefinition>): Registry
    reads all.Values
  {
    Registry(order,
             map k | k in all :: all[k].Header(),
             map k | k in all :: all[k].State())
  }

  /** Storing `m` under its name is `Resolution.Register` on the value. */
  lemma {:induction false} SnapOfRegister(order: seq<string>, all: map<string, ModelDefinition>, m: ModelDefinition)
    ensures SnapOf(if m.name in all then order else order + [m.name], all[m.name := m])
            == Resolution.Register(SnapOf(order, all), m.Header(), m.State())
  {
    var r1 := Resolution.Register(SnapOf(order, all), m.Header(), m.State());
    var s := SnapOf(if m.name in all then order else order + [m.name], all[m.name := m]);
    assert s.headers == r1.headers;
    assert s.states == r1.states;
  }

  class GeneratorCommand {
    const env: Environment
    /** `$this->allModel`: a PHP array, so its keys also have an insertion order. */
    var allModel: map<string, ModelDefinition>
    var order: seq<string>

    ghost function Snapshot(): Registry
      reads this, allModel.Values
    {
      SnapOf(order, allModel)
    }

    /** The registry's invariant is the one of its value: in particular each object is
      * registered under its own name, so different names hold different objects. */
    ghost predicate Valid()
      reads this, allModel.Values
    {
      Resolution.Valid(Snapshot())
    }

    constructor(env: Environment)
      ensures this.env == env && allModel == map[] && order == []
      ensures Valid() && Snapshot() == Empty
    {
      this.env := env;
      allModel := map[];
      order := [];
      new;
      assert Snapshot().headers == map[] && Snapshot().states == map[];
    }

    /** Each registered object is valid on its own, carries its key as name, and holds the
      * registry's state for that key. */
    lemma ModelValid(n: string)
      requires Valid() && n in allModel
      ensures allModel[n].Valid() && allModel[n].name == n
      ensures Snapshot().headers[n] == allModel[n].Header() && Snapshot().states[n] == allModel[n].State()
    {
      assert Snapshot().headers[n] == allModel[n].Header();
    }

    /** When only the object under `n` changed, only the registry's state for `n` changed. */
    twostate lemma Touched(n: string)
      requires old(Valid()) && unchanged(this) && n in allModel && allModel[n].Valid()
      requires forall o :: o in allModel.Values && o != allModel[n] ==> unchanged(o)
      ensures Valid()
      ensures Snapshot() == WithState(old(Snapshot()), n, allModel[n].State())
    {
      var r := old(Snapshot());
      forall k | k in allModel && k != n
        ensures allModel[k].State() == old(allModel[k].State())
      {
        assert r.headers[k] == allModel[k].Header() && r.headers[n] == allModel[n].Header();
        assert allModel[k] in allModel.Values;
      }
      UpdateValid(r, n, allModel[n].State());
      assert Snapshot().states == r.states[n := allModel[n].State()];
    }

    // ---- one model updated through the registry ----

    /** `$model->setProperties($ps)`. */
    method SetPropertiesOf(n: string, ps: seq<PropertyDefinition>)
      requires Valid() && n in allModel
      modifies allModel[n]
      ensures Valid()
      ensures Snapshot() == WithState(old(Snapshot()), n, old(Snapshot()).states[n].(properties := ps))
    {
      ModelValid(n);
      allModel[n].SetProperties(ps);
      Touched(n);
    }

    /** `$model->addProperty($p)`. */
    method AddPropertyTo(n: string, p: PropertyDefinition)
      requires Valid() && n in allModel
      modifies allModel[n]
      ensures Valid()
      ensures Snapshot() == WithState(old(Snapshot()), n, old(Snapshot()).states[n].(properties := old(Snapshot()).states[n].properties + [p]))
    {
      ModelValid(n);
      allModel[n].AddProperty(p);
      Touched(n);
    }

    /** `$model->addPropertyAfter($after, $p)`. */
    method AddPropertyAfterIn(n: string, after: string, p: PropertyDefinition)
      requires Valid() && n in allModel
      modifies allModel[n]
      ensures Valid()
      ensures Snapshot() == WithState(old(Snapshot()), n, old(Snapshot()).states[n].(properties := InsertAfter(old(Snapshot()).states[n].properties, after, p)))
    {
      ModelValid(n);
      allModel[n].AddPropertyAfter(after, p);
      Touched(n);
    }

    /** `$model->addRelationWithOverride($r)`. */
    method OverrideRelationOf(n: string, r: RelationDefinition)
      requires Valid() && n in allModel
      modifies allModel[n]
      ensures Valid()
      ensures Snapshot() == WithState(old(Snapshot()), n, old(Snapshot()).states[n].(relations := Put(old(Snapshot()).states[n].relations, RelationName, r)))
    {
      ModelValid(n);
      allModel[n].AddRelationWithOverride(r);
      Touched(n);
    }

    /** `$model->addRelation($r)`: throws when the name is taken, changing nothing. */
    method AddRelationTo(n: string, r: RelationDefinition) returns (o: Outcome<Error>)
      requires Valid() && n in allModel
      modifies allModel[n]
      ensures Valid()
      ensures var added := AddedRelation(n, old(Snapshot()).states[n].relations, r);
              && (o.Pass? <==> added.Ok?)
              && (o.Fail? ==> added == Err(o.error) && Snapshot() == old(Snapshot()))
              && (o.Pass? ==> Snapshot() == WithState(old(Snapshot()), n, old(Snapshot()).states[n].(relations := added.value)))
    {
      ghost var r0 := Snapshot();
      ModelValid(n);
      WithStateSame(r0, n);
      o := allModel[n].AddRelation(r);
      Touched(n);
    }

    /** `$model->addRelationIfNotExists($r)`. */
    method AddRelationIfAbsentTo(n: string, r: RelationDefinition)
      requires Valid() && n in allModel
      modifies allModel[n]
      ensures Valid()
      ensures Snapshot() == WithState(old(Snapshot()), n, old(Snapshot()).states[n].(relations := PutIfAbsent(old(Snapshot()).states[n].relations, r)))
    {
      ModelValid(n);
      allModel[n].AddRelationIfNotExists(r);
      Touched(n);
    }

    /** Every foreign-key property of `rel`, appended to model `n` in order. */
    method AddForeignKeys(n: string, rel: RelationDefinition)
      requires Valid() && n in allModel
      modifies allModel[n]
      ensures Valid()
      ensures Snapshot() == WithState(old(Snapshot()), n, old(Snapshot()).states[n].(
                properties := old(Snapshot()).states[n].properties + Relations.GenerateAllForeignKeyProperty(env.inflector, rel)))
    {
      var fks := Relations.GenerateAllForeignKeyProperty(env.inflector, rel);
      ModelValid(n);
      var model := allModel[n];
      ghost var st := model.State();
      assert st.properties + fks[..0] == st.properties;
      var i := 0;
      while i < |fks|
        invariant 0 <= i <= |fks|
        invariant model.Valid() && model.State() == st.(properties := st.properties + fks[..i])
      {
        model.AddProperty(fks[i]);
        AppendNext(st.properties, fks, i);
        i := i + 1;
      }
      TakeAll(fks);
      Touched(n);
    }

    // ---- phase 1 ----

    /** `$this->allModel[$name] = $model`. */
    method Register(model: ModelDefinition)
      requires Valid() && model.Valid()
      modifies this
      ensures Valid() && allModel == old(allModel)[model.name := model]
      ensures forall m :: m in allModel.Values ==> m in old(allModel.Values) || m == model
      ensures Snapshot() == Resolution.Register(old(Snapshot()), model.Header(), model.State())
    {
      if model.name !in allModel {
        order := order + [model.name];
      }
      allModel := allModel[model.name := model];
      Registered(model);
    }

    /** After `model` was stored under its name, with no object changed, the registry is the
      * old one with `model` registered. */
    twostate lemma Registered(model: ModelDefinition)
      requires old(Valid()) && model.Valid() && unchanged(model)
      requires forall o :: o in old(allModel).Values ==> unchanged(o)
      requires allModel == old(allModel)[model.name := model]
      requires order == if model.name in old(allModel) then old(order) else old(order) + [model.name]
      ensures Valid() && Snapshot() == Resolution.Register(old(Snapshot()), model.Header(), model.State())
    {
      var r := old(Snapshot());
      assert SnapOf(old(order), old(allModel)) == r;
      RegisterValid(r, model.Header(), model.State());
      SnapOfRegister(old(order), old(allModel), model);
    }

    /** One file's model (:72-138): its header parsed, the object constructed, its properties
      * set and its observer flag decided while it has no relations yet. */
    method NewModel(input: ModelInput) returns (res: Result<ModelDefinition, Error>)
      ensures res.Ok? ==> fresh(res.value) && res.value.Valid()
      ensures res.Ok? <==> ParseModel(env.inflector, input).Ok?
      ensures res.Ok? ==> ParseModel(env.inflector, input).value == (res.value.Header(), res.value.State())
      ensures res.Err? ==> ParseModel(env.inflector, input) == Err(res.error)
    {
      ParseModelParts(env.inflector, input);
      var header := ParseHeader(env.inflector, input);
      if header.Err? {
        return Err(header.error);
      }
      var h := header.value;
      var properties := InitialProperties(env.inflector, h.Ref(), input.spec.properties);
      if properties.Err? {
        return Err(properties.error);
      }
      var model := new ModelDefinition(h.name, h.namespace, h.table, input.spec.observer.GetOr(false),
                                       h.titleAttributes, h.mixins, h.request, h.ulidPrefix, h.original);
      model.SetProperties(properties.value);
      model.SetHasObserver(DetermineHasObserver(model.hasObserver, model.relations, model.mixins));
      res := Ok(model);
    }

    /** An empty registry is valid and its value is `Empty`. */
    lemma EmptySnapshot()
      requires allModel == map[] && order == []
      ensures Valid() && Snapshot() == Empty
    {
      assert Snapshot().headers == map[] && Snapshot().states == map[];
    }

    /** One file of phase 1 (:72-138): its model constructed and registered, or its error. */
    method ParseFile(input: ModelInput) returns (o: Outcome<Error>)
      requires Valid()
      modifies this
      ensures forall m :: m in allModel.Values ==> m in old(allModel.Values) || fresh(m)
      ensures o.Pass? <==> ParseModel(env.inflector, input).Ok?
      ensures o.Fail? ==> ParseModel(env.inflector, input) == Err(o.error)
      ensures o.Pass? ==>
        Valid() && Snapshot() == Resolution.Register(old(Snapshot()), ParseModel(env.inflector, input).value.0, ParseModel(env.inflector, input).value.1)
    {
      ghost var parsed := ParseModel(env.inflector, input);
      var model := NewModel(input);
      if model.Err? {
        return Fail(model.error);
      }
      ghost var header, state := model.value.Header(), model.value.State();
      assert parsed == Ok((header, state));
      ghost var before := Snapshot();
      Register(model.value);
      assert Snapshot() == Resolution.Register(before, header, state);
      o := Pass;
    }

    /** File `i` of phase 1, after the files before it built the current registry. */
    method ParseOne(inputs: seq<ModelInput>, i: nat) returns (o: Outcome<Error>)
      requires i < |inputs| && Valid() && Phase1(ModelParser(env.inflector), inputs[..i]) == Ok(Snapshot())
      modifies this
      ensures forall m :: m in allModel.Values ==> m in old(allModel.Values) || fresh(m)
      ensures o.Pass? ==> Valid() && Phase1(ModelParser(env.inflector), inputs[..i + 1]) == Ok(Snapshot())
      ensures o.Fail? ==> Phase1(ModelParser(env.inflector), inputs) == Err(o.error)
    {
      Phase1Next(ModelParser(env.inflector), inputs, i, Snapshot());
      assert ModelParser(env.inflector)(inputs[i]) == ParseModel(env.inflector, inputs[i]);
      o := ParseFile(inputs[i]);
    }

    /** Phase 1 (:72-138): every file's model constructed, its observer flag decided with
      * no relations yet, and registered; the first file that fails aborts. */
    method ParseAll(inputs: seq<ModelInput>) returns (o: Outcome<Error>)
      requires allModel == map[] && order == []
      modifies this
      ensures forall m :: m in allModel.Values ==> fresh(m)
      ensures o.Pass? <==> Phase1(ModelParser(env.inflector), inputs).Ok?
      ensures o.Pass? ==> Valid() && Snapshot() == Phase1(ModelParser(env.inflector), inputs).value
      ensures o.Fail? ==> Phase1(ModelParser(env.inflector), inputs) == Err(o.error)
    {
      EmptySnapshot();
      var i := 0;
      while i < |inputs|
        invariant 0 <= i <= |inputs|
        invariant forall m :: m in allModel.Values ==> fresh(m)
        invariant Valid()
        invariant Phase1(ModelParser(env.inflector), inputs[..i]) == Ok(Snapshot())
      {
        o := ParseOne(inputs, i);
        if o.Fail? {
          return;
        }
        i := i + 1;
      }
      TakeAll(inputs);
      o := Pass;
    }

    // ---- phase 2 ----

    /** A relation stored on model `n` under its name, its foreign keys appended (:154-159). */
    method Store(n: string, rel: RelationDefinition)
      requires Valid() && n in allModel
      modifies allModel[n]
      ensures Valid() && Snapshot() == Stored(env.inflector, old(Snapshot()), n, rel)
    {
      ghost var r := Snapshot();
      OverrideRelationOf(n, rel);
      AddForeignKeys(n, rel);
      StoredSteps(env.inflector, r, n, rel);
    }

    /** One relation of model `n` wired in (:146-166). */
    method Wire(n: string, rel: RelationDefinition, all: seq<RelationDefinition>) returns (o: Outcome<Error>)
      requires Valid() && n in allModel && Wirable(rel, Snapshot().headers)
      modifies allModel.Values
      ensures Valid()
      ensures o.Pass? <==> Resolution.WireRelation(env.inflector, old(Snapshot()), n, rel, all).Ok?
      ensures o.Pass? ==> Snapshot() == Resolution.WireRelation(env.inflector, old(Snapshot()), n, rel, all).value
      ensures o.Fail? ==> Resolution.WireRelation(env.inflector, old(Snapshot()), n, rel, all) == Err(o.error)
    {
      var first := RelationCollection.GetWithEventOrNull(all);
      if rel.isEvent && first.Some? && rel.name != first.value.name {
        WireRelationEvent(env.inflector, Snapshot(), n, rel, all);
        return Fail(MultipleEventRelations(n, rel.name, first.value.name));
      }
      o := StoreWithCounter(n, rel, all);
    }

    /** A relation that does not clash with the first event relation: stored on model `n`,
      * then its inverse added (:152-165). */
    method StoreWithCounter(n: string, rel: RelationDefinition, ghost all: seq<RelationDefinition>) returns (o: Outcome<Error>)
      requires Valid() && n in allModel && Wirable(rel, Snapshot().headers) && !SecondEvent(all, rel)
      modifies allModel.Values
      ensures Valid()
      ensures o.Pass? <==> Resolution.WireRelation(env.inflector, old(Snapshot()), n, rel, all).Ok?
      ensures o.Pass? ==> Snapshot() == Resolution.WireRelation(env.inflector, old(Snapshot()), n, rel, all).value
      ensures o.Fail? ==> Resolution.WireRelation(env.inflector, old(Snapshot()), n, rel, all) == Err(o.error)
    {
      Store(n, rel);
      o := AddCounterRelation(rel);
    }

    /** The inverse relation of `rel`, when it asks for one, added to its counterpart model
      * unless that model already has a relation by its name (:160-165). */
    method AddCounterRelation(rel: RelationDefinition) returns (o: Outcome<Error>)
      requires Valid() && Wirable(rel, Snapshot().headers)
      modifies allModel.Values
      ensures Valid()
      ensures o.Pass? <==> AddCounter(env.inflector, old(Snapshot()), rel).Ok?
      ensures o.Pass? ==> Snapshot() == AddCounter(env.inflector, old(Snapshot()), rel).value
      ensures o.Fail? ==> AddCounter(env.inflector, old(Snapshot()), rel) == Err(o.error)
    {
      var counter := Relations.GenerateCounterRelationOrNull(env.inflector, rel);
      if counter.Err? {
        return Fail(counter.error);
      }
      if counter.value.Some? {
        var c := counter.value.value;
        AddRelationIfAbsentTo(c.owner.name, c);
      }
      o := Pass;
    }

    /** One model of phase 2 (:141-167): its relations built against the registry, then wired
      * in order. */
    method WireModel(n: string) returns (o: Outcome<Error>)
      requires Valid() && n in allModel
      modifies allModel.Values
      ensures Valid()
      ensures o.Pass? <==> Resolution.ResolveModel(env.inflector, old(Snapshot()), n).Ok?
      ensures o.Pass? ==> Snapshot() == Resolution.ResolveModel(env.inflector, old(Snapshot()), n).value
      ensures o.Fail? ==> Resolution.ResolveModel(env.inflector, old(Snapshot()), n) == Err(o.error)
    {
      ghost var r := Snapshot();
      var refs := map k | k in allModel :: allModel[k].Ref();
      assert refs == Refs(r.headers);
      var model := allModel[n];
      var built := BuildRelations(env.inflector, refs, model.Ref(), model.original.relations);
      if built.Err? {
        return Fail(built.error);
      }
      RefsWirable(r, built.value);
      o := WireRelationsOf(n, built.value);
    }

    /** Relation `i` of model `n`, after the relations before it wired the registry `r` into
      * the current one. */
    method WireNextRelation(ghost r: Registry, n: string, rels: seq<RelationDefinition>, i: nat) returns (o: Outcome<Error>)
      requires Valid() && ByName(r) && n in r.headers && (forall x :: x in rels ==> Wirable(x, r.headers)) && i < |rels|
      requires (forall x :: x in rels[..i] ==> Wirable(x, r.headers)) && WireRelations(env.inflector, r, n, rels[..i], rels) == Ok(Snapshot())
      modifies allModel.Values
      ensures Valid()
      ensures o.Pass? ==>
        (forall x :: x in rels[..i + 1] ==> Wirable(x, r.headers)) && WireRelations(env.inflector, r, n, rels[..i + 1], rels) == Ok(Snapshot())
      ensures o.Fail? ==> WireRelations(env.inflector, r, n, rels, rels) == Err(o.error)
    {
      WireRelationsNext(env.inflector, r, n, rels, i, rels, Snapshot());
      o := Wire(n, rels[i], rels);
      if o.Fail? {
        WireRelationsStopsAt(env.inflector, r, n, rels, i + 1, rels);
      }
    }

    /** Model `n`'s built relations wired in order (:146-166); the first error stops. */
    method WireRelationsOf(n: string, rels: seq<RelationDefinition>) returns (o: Outcome<Error>)
      requires Valid() && n in allModel && forall x :: x in rels ==> Wirable(x, Snapshot().headers)
      modifies allModel.Values
      ensures Valid()
      ensures o.Pass? <==> WireRelations(env.inflector, old(Snapshot()), n, rels, rels).Ok?
      ensures o.Pass? ==> Snapshot() == WireRelations(env.inflector, old(Snapshot()), n, rels, rels).value
      ensures o.Fail? ==> WireRelations(env.inflector, old(Snapshot()), n, rels, rels) == Err(o.error)
    {
      ghost var r := Snapshot();
      var i := 0;
      while i < |rels|
        invariant 0 <= i <= |rels|
        invariant Valid()
        invariant forall x :: x in rels[..i] ==> Wirable(x, r.headers)
        invariant WireRelations(env.inflector, r, n, rels[..i], rels) == Ok(Snapshot())
      {
        o := WireNextRelation(r, n, rels, i);
        if o.Fail? {
          return;
        }
        i := i + 1;
      }
      TakeAll(rels);
      o := Pass;
    }

    /** Model `i` of phase 2, after the models before it wired the registry `r` into the
      * current one. */
    method WireNext(ghost r: Registry, names: seq<string>, i: nat) returns (o: Outcome<Error>)
      requires Valid() && ByName(r) && (forall k :: k in names ==> k in r.headers) && i < |names|
      requires (forall k :: k in names[..i] ==> k in r.headers) && Phase2(env.inflector, r, names[..i]) == Ok(Snapshot())
      modifies allModel.Values
      ensures Valid()
      ensures o.Pass? ==>
        (forall k :: k in names[..i + 1] ==> k in r.headers) && Phase2(env.inflector, r, names[..i + 1]) == Ok(Snapshot())
      ensures o.Fail? ==> Phase2(env.inflector, r, names) == Err(o.error)
    {
      Phase2Next(env.inflector, r, names, i, Snapshot());
      o := WireModel(names[i]);
      if o.Fail? {
        Phase2StopsAt(env.inflector, r, names, i + 1);
      }
    }

    /** Phase 2 (:141-168): every registered model's relations, in registry order. */
    method WireAll() returns (o: Outcome<Error>)
      requires Valid()
      modifies allModel.Values
      ensures Valid()
      ensures o.Pass? <==> Phase2(env.inflector, old(Snapshot()), order).Ok?
      ensures o.Pass? ==> Snapshot() == Phase2(env.inflector, old(Snapshot()), order).value
      ensures o.Fail? ==> Phase2(env.inflector, old(Snapshot()), order) == Err(o.error)
    {
      ghost var r := Snapshot();
      var names := order;
      var i := 0;
      while i < |names|
        invariant 0 <= i <= |names|
        invariant Valid()
        invariant forall k :: k in names[..i] ==> k in r.headers
        invariant Phase2(env.inflector, r, names[..i]) == Ok(Snapshot())
      {
        o := WireNext(r, names, i);
        if o.Fail? {
          return;
        }
        i := i + 1;
      }
      TakeAll(names);
      o := Pass;
    }

    // ---- prefix check ----

    /** `validateUlidPrefixUniqueIfNeeded` (:849-862) over every registered model's prefix. */
    method ValidateUlidPrefixUniqueIfNeeded() returns (o: Outcome<Error>)
      requires Valid()
      ensures o == UlidPrefix.ValidateUlidPrefixUnique(env.ulidPrefixCheckDisabled, Prefixes(Snapshot()))
    {
      if env.ulidPrefixCheckDisabled {
        return Pass;
      }
      var prefixes: seq<string> := [];
      var i := 0;
      while i < |order|
        invariant 0 <= i <= |order|
        invariant prefixes == Prefixes(Snapshot())[..i]
      {
        assert order[i] in order;
        prefixes := prefixes + [allModel[order[i]].ulidPrefix];
        i := i + 1;
      }
      TakeAll(Prefixes(Snapshot()));
      o := UlidPrefix.ValidateUlidPrefixUnique(false, prefixes);
    }

    // ---- phase 3 ----

    /** `addReviewRelations` (:639-675) on model `n`: the reviewer relation to `User`, and its
      * foreign key. */
    method AddReviewRelations(n: string) returns (o: Outcome<Error>)
      requires Valid() && n in allModel
      modifies allModel[n]
      ensures Valid()
      ensures Stepped(o, ReviewRelations(env.inflector, old(Snapshot()).headers[n], UserRef(old(Snapshot())), old(Snapshot()).states[n]),
                      old(Snapshot()), n, Snapshot())
    {
      if "User" !in allModel {
        ModelValid(n);
        return Fail(ModelDoesNotExist(allModel[n].name, "User"));
      }
      ModelValid("User");
      o := AddReviewerRelation(n, allModel["User"].Ref());
    }

    /** The part of `addReviewRelations` (:650-673) after `User` was found: the relation to
      * `user`, and its foreign key. */
    method AddReviewerRelation(n: string, user: ModelRef) returns (o: Outcome<Error>)
      requires Valid() && n in allModel
      modifies allModel[n]
      ensures Valid()
      ensures Stepped(o, ReviewRelations(env.inflector, old(Snapshot()).headers[n], Some(user), old(Snapshot()).states[n]),
                      old(Snapshot()), n, Snapshot())
    {
      ModelValid(n);
      var rel := ReviewRelation(allModel[n].Ref(), user);
      ghost var r := Snapshot();
      ReviewRelationsSteps(env.inflector, r, n, user);
      o := AddRelationTo(n, rel);
      if o.Fail? {
        return;
      }
      ghost var st1 := Snapshot().states[n];
      AddForeignKeys(n, rel);
      WithStateTwice(r, n, st1, st1.(properties := st1.properties + Relations.GenerateAllForeignKeyProperty(env.inflector, rel)));
    }

    /** `addReviewProperties` (:736-777) on model `n`: the review message, once `status` is an
      * enum offering both review choices. */
    method AddReviewProperties(n: string) returns (o: Outcome<Error>)
      requires Valid() && n in allModel
      modifies allModel[n]
      ensures Valid()
      ensures Stepped(o, ReviewProperties(env, old(Snapshot()).headers[n], old(Snapshot()).states[n]), old(Snapshot()), n, Snapshot())
    {
      ModelValid(n);
      var model := allModel[n];
      var names := StatusChoiceNames(env, model.properties);
      if names.None? {
        return Fail(ReviewStatusNotEnum(model.name));
      }
      if names.value.Err? {
        return Fail(names.value.error);
      }
      if "IN_REVIEW" !in names.value.value || "REJECTED" !in names.value.value {
        return Fail(ReviewChoicesMissing(model.name));
      }
      AddPropertyTo(n, ReviewMessageProperty(model.Ref()));
      o := Pass;
    }

    /** `addGeolocationProperties` (:677-734) on model `n`. */
    method AddGeolocationProperties(n: string, m: MixinDefinition) returns (o: Outcome<Error>)
      requires Valid() && n in allModel
      modifies allModel[n]
      ensures Valid()
      ensures Stepped(o, GeolocationProperties(old(Snapshot()).headers[n], m, old(Snapshot()).states[n]), old(Snapshot()), n, Snapshot())
    {
      ModelValid(n);
      var model := allModel[n];
      match m {
        case PlainMixin(_, _) =>
          return Fail(GeolocationMixinTypeError(model.name));
        case GeolocationMixinDefinition(_, _, address) =>
          ghost var r := Snapshot();
          AddPropertyTo(n, GeolocationProperty(model.Ref()));
          if address {
            ghost var st1 := Snapshot().states[n];
            AddPropertyTo(n, AddressProperty(model.Ref()));
            WithStateTwice(r, n, st1, st1.(properties := st1.properties + [AddressProperty(model.Ref())]));
          }
          o := Pass;
      }
    }

    /** `addSoftDeleteProperties` (:779-808) on model `n`. */
    method AddSoftDeleteProperties(n: string) returns (o: Outcome<Error>)
      requires Valid() && n in allModel
      modifies allModel[n]
      ensures Valid()
      ensures Stepped(o, Ok(SoftDeleteProperties(old(Snapshot()).headers[n], old(Snapshot()).states[n])), old(Snapshot()), n, Snapshot())
    {
      ModelValid(n);
      var model := allModel[n];
      AddPropertyAfterIn(n, "updated_at", DeletedAtProperty(model.Ref()));
      o := Pass;
    }

    /** The REVIEW mixin of model `n` (:623-626): its reviewer relation, then its status check. */
    method AddReview(n: string) returns (o: Outcome<Error>)
      requires Valid() && n in allModel
      modifies allModel[n]
      ensures Valid()
      ensures Stepped(o, ReviewMixin(env, old(Snapshot()).headers[n], UserRef(old(Snapshot())), old(Snapshot()).states[n]),
                      old(Snapshot()), n, Snapshot())
    {
      ghost var r := Snapshot();
      o := AddReviewRelations(n);
      if o.Fail? {
        return;
      }
      ghost var st1 := Snapshot().states[n];
      o := AddReviewProperties(n);
      if o.Pass? {
        WithStateTwice(r, n, st1, Snapshot().states[n]);
      }
    }

    /** One mixin of model `n` (:621-635), by its type. */
    method AddMixin(n: string, m: MixinDefinition) returns (o: Outcome<Error>)
      requires Valid() && n in allModel
      modifies allModel[n]
      ensures Valid()
      ensures Stepped(o, ApplyMixin(env, old(Snapshot()).headers[n], UserRef(old(Snapshot())), old(Snapshot()).states[n], m),
                      old(Snapshot()), n, Snapshot())
    {
      match m.mixinType
      case Review =>
        o := AddReview(n);
      case GeolocationMixin =>
        o := AddGeolocationProperties(n, m);
      case SoftDelete =>
        o := AddSoftDeleteProperties(n);
    }

    /** `addMixins` (:618-637): model `n`'s mixins in declaration order; the first error stops. */
    method AddMixins(n: string) returns (o: Outcome<Error>)
      requires Valid() && n in allModel
      modifies allModel[n]
      ensures Valid()
      ensures var h := old(Snapshot()).headers[n];
              var out := ApplyMixins(env, h, UserRef(old(Snapshot())), old(Snapshot()).states[n], h.mixins);
              && (o.Pass? <==> out.Ok?)
              && (o.Pass? ==> Snapshot() == WithState(old(Snapshot()), n, out.value))
              && (o.Fail? ==> out == Err(o.error))
    {
      ghost var r := Snapshot();
      ghost var h := r.headers[n];
      ghost var user := UserRef(r);
      ghost var cur := r.states[n];
      var ms := allModel[n].mixins;
      assert ms[..0] == [];
      WithStateSame(r, n);
      var i := 0;
      while i < |ms|
        invariant 0 <= i <= |ms|
        invariant Valid()
        invariant ApplyMixins(env, h, user, r.states[n], ms[..i]) == Ok(cur)
        invariant Snapshot() == WithState(r, n, cur)
      {
        TakeNext(ms, i);
        ApplyMixinsSnoc(env, h, user, r.states[n], ms[..i], ms[i]);
        WithStateParts(r, n, cur);
        o := AddMixin(n, ms[i]);
        if o.Fail? {
          ApplyMixinsStopsAt(env, h, user, r.states[n], ms, i + 1);
          return;
        }
        WithStateTwice(r, n, cur, Snapshot().states[n]);
        cur := Snapshot().states[n];
        i := i + 1;
      }
      TakeAll(ms);
      o := Pass;
    }

    /** Phase 3 (:185-187): the mixins of each selected model. */
    method MixinAll(sel: seq<string>) returns (o: Outcome<Error>)
      requires Valid() && forall k :: k in sel ==> k in allModel
      modifies allModel.Values
      ensures Valid()
      ensures o.Pass? <==> AddAllMixins(env, old(Snapshot()), sel).Ok?
      ensures o.Pass? ==> Snapshot() == AddAllMixins(env, old(Snapshot()), sel).value
      ensures o.Fail? ==> AddAllMixins(env, old(Snapshot()), sel) == Err(o.error)
    {
      ghost var r := Snapshot();
      var i := 0;
      while i < |sel|
        invariant 0 <= i <= |sel|
        invariant Valid()
        invariant forall k :: k in sel[..i] ==> k in r.headers
        invariant AddAllMixins(env, r, sel[..i]) == Ok(Snapshot())
      {
        var n := sel[i];
        assert n in sel;
        TakeNext(sel, i);
        AddAllMixinsSnoc(env, r, sel[..i], n);
        o := AddMixins(n);
        if o.Fail? {
          AddAllMixinsStopsAt(env, r, sel, i + 1);
          return;
        }
        i := i + 1;
      }
      TakeAll(sel);
      o := Pass;
    }

    // ---- phase 4 ----

    /** `validateTitleAttributes` (:579-594) on model `n`. */
    method ValidateTitles(n: string) returns (o: Outcome<Error>)
      requires Valid() && n in allModel
      ensures o == ValidateTitleAttributes(n, allModel[n].titleAttributes, allModel[n].properties)
    {
      var model := allModel[n];
      var titles := model.titleAttributes;
      var ps := model.properties;
      var i := 0;
      while i < |titles|
        invariant 0 <= i <= |titles|
        invariant ValidateTitleAttributes(n, titles, ps) == ValidateTitleAttributes(n, titles[i..], ps)
      {
        var property := Get(GetNonComputed(ps), titles[i]);
        if property.Some? && property.value.index.None? {
          return Fail(TitleAttributeWithoutIndex(n, titles[i]));
        }
        assert titles[i..][1..] == titles[i + 1..];
        i := i + 1;
      }
      o := Pass;
    }

    /** One model of phase 4 (:189-192): its properties put in order, then its title
      * attributes checked against the ordered list. */
    method OrderModel(n: string) returns (o: Outcome<Error>)
      requires Valid() && n in allModel
      modifies allModel[n]
      ensures Valid()
      ensures var ps := Order(old(Snapshot()).states[n].properties);
              && o == ValidateTitleAttributes(n, old(Snapshot()).headers[n].titleAttributes, ps)
              && Snapshot() == WithState(old(Snapshot()), n, old(Snapshot()).states[n].(properties := ps))
    {
      ghost var r := Snapshot();
      ModelValid(n);
      var ps := Order(allModel[n].properties);
      SetPropertiesOf(n, ps);
      WithStateParts(r, n, r.states[n].(properties := ps));
      ModelValid(n);
      o := ValidateTitles(n);
    }

    /** Phase 4 (:189-192): each selected model's properties put in order, then its title
      * attributes checked. */
    method OrderAndCheck(sel: seq<string>) returns (o: Outcome<Error>)
      requires Valid() && forall k :: k in sel ==> k in allModel
      modifies allModel.Values
      ensures Valid()
      ensures o.Pass? <==> OrderAll(old(Snapshot()), sel).Ok?
      ensures o.Pass? ==> Snapshot() == OrderAll(old(Snapshot()), sel).value
      ensures o.Fail? ==> OrderAll(old(Snapshot()), sel) == Err(o.error)
    {
      ghost var r := Snapshot();
      var i := 0;
      while i < |sel|
        invariant 0 <= i <= |sel|
        invariant Valid()
        invariant forall k :: k in sel[..i] ==> k in r.headers
        invariant OrderAll(r, sel[..i]) == Ok(Snapshot())
      {
        var n := sel[i];
        assert n in sel;
        TakeNext(sel, i);
        OrderAllSnoc(r, sel[..i], n);
        o := OrderModel(n);
        if o.Fail? {
          OrderAllStopsAt(r, sel, i + 1);
          return;
        }
        i := i + 1;
      }
      TakeAll(sel);
      o := Pass;
    }

    // ---- handle ----

    /** Phases 1 and 2 (:64-168): the registry filled from the files, then every model's
      * relations wired. */
    method ResolveAll(inputs: seq<ModelInput>) returns (o: Outcome<Error>)
      requires allModel == map[] && order == []
      modifies this
      ensures forall m :: m in allModel.Values ==> fresh(m)
      ensures o.Pass? <==> Resolve(env.inflector, inputs).Ok?
      ensures o.Pass? ==> Valid() && Snapshot() == Resolve(env.inflector, inputs).value
      ensures o.Fail? ==> Resolve(env.inflector, inputs) == Err(o.error)
    {
      o := ParseAll(inputs);
      if o.Fail? {
        return;
      }
      o := WireAll();
    }

    /** The models the `only` argument selects (:170-181): that one, which must be registered, or all of
      * them in registry order. */
    method SelectModels(only: Option<string>) returns (sel: Result<seq<string>, Error>)
      requires Valid()
      ensures sel == Select(Snapshot(), only)
    {
      if only.Some? && Truthy(only.value) {
        if only.value !in allModel {
          return Err(ModelNotFound(only.value));
        }
        return Ok([only.value]);
      }
      return Ok(order);
    }

    /** Phases 3 and 4 over a selection (:185-192). */
    method MixAndOrder(sel: seq<string>) returns (o: Outcome<Error>)
      requires Valid() && forall k :: k in sel ==> k in allModel
      modifies allModel.Values
      ensures Valid()
      ensures o.Pass? <==> Resolution.MixAndOrder(env, old(Snapshot()), sel).Ok?
      ensures o.Pass? ==> Snapshot() == Resolution.MixAndOrder(env, old(Snapshot()), sel).value
      ensures o.Fail? ==> Resolution.MixAndOrder(env, old(Snapshot()), sel) == Err(o.error)
    {
      o := MixinAll(sel);
      if o.Fail? {
        return;
      }
      o := OrderAndCheck(sel);
    }

    /** Phases 3 and 4 on a resolved registry (:170-192): the selection, the prefix check,
      * then the mixins and the ordering of each selected model. */
    method HandleSelected(only: Option<string>) returns (o: Outcome<Error>)
      requires Valid()
      modifies allModel.Values
      ensures Valid()
      ensures o.Pass? <==> HandleResolved(env, old(Snapshot()), only).Ok?
      ensures o.Pass? ==> Snapshot() == HandleResolved(env, old(Snapshot()), only).value
      ensures o.Fail? ==> HandleResolved(env, old(Snapshot()), only) == Err(o.error)
    {
      var sel := SelectModels(only);
      if sel.Err? {
        return Fail(sel.error);
      }
      o := ValidateUlidPrefixUniqueIfNeeded();
      if o.Fail? {
        return;
      }
      o := MixAndOrder(sel.value);
    }

    /** The resolution phases of `handle` (:62-191): the four phases run on the registry's
      * objects, without the per-model generator calls that follow (:193-241); the outcome and
      * the final registry are those `Resolution.Handle` computes. */
    method Handle(inputs: seq<ModelInput>, only: Option<string>) returns (o: Outcome<Error>)
      requires allModel == map[] && order == []
      modifies this
      ensures o.Pass? <==> Resolution.Handle(env, inputs, only).Ok?
      ensures o.Pass? ==> Valid() && Snapshot() == Resolution.Handle(env, inputs, only).value
      ensures o.Fail? ==> Resolution.Handle(env, inputs, only) == Err(o.error)
    {
      if |inputs| == 0 {
        return Fail(NoDefinitionFiles);
      }
      o := ResolveAll(inputs);
      if o.Fail? {
        return;
      }
      o := HandleSelected(only);
    }
  }
}
