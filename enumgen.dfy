/** src/Generator/Enum/GeneratorEnum.php without the file write: the duplicate-choice check,
  * the backing type, one case per choice and the body of the generated `fromName`. */
module EnumGen {
  import opened Wrappers
  import opened Text
  import opened Seqs
  import opened Errors
  import opened Definitions
  import opened Layout

  // ---- groupBy ----

  /** The names of the choices whose key is `k`, in collection order: one group of `groupBy`. */
  function NamesWithKey<K(==)>(cs: seq<EnumChoice>, key: EnumChoice -> K, k: K): seq<string>
    decreases |cs|
  {
    if |cs| == 0 then []
    else NamesWithKey(cs[..|cs| - 1], key, k) + (if key(cs[|cs| - 1]) == k then [cs[|cs| - 1].name] else [])
  }

  /** The keys of `groupBy`: each key once, in the order it first occurs. */
  function GroupKeys<K(==)>(cs: seq<EnumChoice>, key: EnumChoice -> K): seq<K>
    decreases |cs|
  {
    if |cs| == 0 then []
    else
      var ks := GroupKeys(cs[..|cs| - 1], key);
      if key(cs[|cs| - 1]) in ks then ks else ks + [key(cs[|cs| - 1])]
  }

  /** `groupBy($key)`: every key with the names of its choices, keys in order of first occurrence. */
  function GroupBy<K(==)>(cs: seq<EnumChoice>, key: EnumChoice -> K): seq<(K, seq<string>)> {
    Map(GroupKeys(cs, key), (k: K) => (k, NamesWithKey(cs, key, k)))
  }

  predicate Duplicated<K>(g: (K, seq<string>)) {
    |g.1| > 1
  }

  /** `->map(count() > 1 ? message : '')->filter()`: the groups of more than one choice. */
  function DuplicateGroups<K(==,!new)>(cs: seq<EnumChoice>, key: EnumChoice -> K): seq<(K, seq<string>)> {
    Filter(GroupBy(cs, key), Duplicated)
  }

  /** A choice's key is one of the keys. */
  lemma {:induction false} GroupKeysComplete<K>(cs: seq<EnumChoice>, key: EnumChoice -> K, i: nat)
    requires i < |cs|
    ensures key(cs[i]) in GroupKeys(cs, key)
    decreases |cs|
  {
    var init := cs[..|cs| - 1];
    if i < |cs| - 1 {
      assert cs[i] == init[i];
      GroupKeysComplete(init, key, i);
    }
  }

  /** Every key is some choice's key. */
  lemma {:induction false} GroupKeysSound<K>(cs: seq<EnumChoice>, key: EnumChoice -> K, k: K)
    requires k in GroupKeys(cs, key)
    ensures exists i :: 0 <= i < |cs| && key(cs[i]) == k
    decreases |cs|
  {
    var init := cs[..|cs| - 1];
    if k in GroupKeys(init, key) {
      GroupKeysSound(init, key, k);
      var i :| 0 <= i < |init| && key(init[i]) == k;
      assert cs[i] == init[i];
    } else {
      assert key(cs[|cs| - 1]) == k;
    }
  }

  /** No key is listed twice. */
  lemma {:induction false} GroupKeysDistinct<K>(cs: seq<EnumChoice>, key: EnumChoice -> K)
    ensures Distinct(GroupKeys(cs, key))
    decreases |cs|
  {
    if |cs| > 0 {
      var init := cs[..|cs| - 1];
      GroupKeysDistinct(init, key);
      if key(cs[|cs| - 1]) !in GroupKeys(init, key) {
        DistinctAppend(GroupKeys(init, key), key(cs[|cs| - 1]));
      }
    }
  }

  /** Exactly the choices with key `k` are named in its group. */
  lemma {:induction false} NamesWithKeyMeans<K>(cs: seq<EnumChoice>, key: EnumChoice -> K, k: K, n: string)
    ensures n in NamesWithKey(cs, key, k) <==> exists i :: 0 <= i < |cs| && key(cs[i]) == k && cs[i].name == n
    decreases |cs|
  {
    if |cs| > 0 {
      var init := cs[..|cs| - 1];
      NamesWithKeyMeans(init, key, k, n);
      assert forall i :: 0 <= i < |init| ==> init[i] == cs[i];
      if n in NamesWithKey(cs, key, k) && n !in NamesWithKey(init, key, k) {
        assert key(cs[|cs| - 1]) == k && cs[|cs| - 1].name == n;
      }
    }
  }

  /** A group holds at least one name per choice with its key. */
  lemma {:induction false} NamesWithKeyAt<K>(cs: seq<EnumChoice>, key: EnumChoice -> K, i: nat)
    requires i < |cs|
    ensures |NamesWithKey(cs, key, key(cs[i]))| >= 1
    decreases |cs|
  {
    var init := cs[..|cs| - 1];
    if i < |cs| - 1 {
      assert cs[i] == init[i];
      NamesWithKeyAt(init, key, i);
    }
  }

  /** Two choices with the same key make a group of at least two. */
  lemma {:induction false} NamesWithKeyPair<K>(cs: seq<EnumChoice>, key: EnumChoice -> K, i: nat, j: nat)
    requires i < j < |cs| && key(cs[i]) == key(cs[j])
    ensures |NamesWithKey(cs, key, key(cs[i]))| >= 2
    decreases |cs|
  {
    var init := cs[..|cs| - 1];
    assert cs[i] == init[i];
    if j == |cs| - 1 {
      NamesWithKeyAt(init, key, i);
    } else {
      assert cs[j] == init[j];
      NamesWithKeyPair(init, key, i, j);
    }
  }

  /** A group of at least one name comes from a choice with its key. */
  lemma {:induction false} NamesWithKeyOne<K>(cs: seq<EnumChoice>, key: EnumChoice -> K, k: K)
    requires |NamesWithKey(cs, key, k)| >= 1
    ensures exists i :: 0 <= i < |cs| && key(cs[i]) == k
    decreases |cs|
  {
    var init := cs[..|cs| - 1];
    if key(cs[|cs| - 1]) != k {
      NamesWithKeyOne(init, key, k);
      var i :| 0 <= i < |init| && key(init[i]) == k;
      assert cs[i] == init[i];
    }
  }

  /** A group of at least two names comes from two choices with its key. */
  lemma {:induction false} NamesWithKeyShared<K>(cs: seq<EnumChoice>, key: EnumChoice -> K, k: K)
    requires |NamesWithKey(cs, key, k)| >= 2
    ensures exists i, j :: 0 <= i < j < |cs| && key(cs[i]) == k && key(cs[j]) == k
    decreases |cs|
  {
    var init := cs[..|cs| - 1];
    if key(cs[|cs| - 1]) == k {
      NamesWithKeyOne(init, key, k);
      var i :| 0 <= i < |init| && key(init[i]) == k;
      assert cs[i] == init[i];
      assert key(cs[i]) == k && key(cs[|cs| - 1]) == k;
    } else {
      NamesWithKeyShared(init, key, k);
      var i, j :| 0 <= i < j < |init| && key(init[i]) == k && key(init[j]) == k;
      assert cs[i] == init[i] && cs[j] == init[j];
    }
  }

  /** The check reports a duplicate iff two choices share a key. */
  lemma {:induction false} DuplicatesIff<K(!new)>(cs: seq<EnumChoice>, key: EnumChoice -> K)
    ensures |DuplicateGroups(cs, key)| > 0 <==> exists i, j :: 0 <= i < j < |cs| && key(cs[i]) == key(cs[j])
  {
    var ks := GroupKeys(cs, key);
    var gs := GroupBy(cs, key);
    if |DuplicateGroups(cs, key)| > 0 {
      var g := DuplicateGroups(cs, key)[0];
      assert g in gs && Duplicated(g);
      var x :| 0 <= x < |ks| && gs[x] == g;
      NamesWithKeyShared(cs, key, ks[x]);
    }
    if exists i, j :: 0 <= i < j < |cs| && key(cs[i]) == key(cs[j]) {
      var i, j :| 0 <= i < j < |cs| && key(cs[i]) == key(cs[j]);
      NamesWithKeyPair(cs, key, i, j);
      GroupKeysComplete(cs, key, i);
      var x :| 0 <= x < |ks| && ks[x] == key(cs[i]);
      assert Duplicated(gs[x]);
      assert gs[x] in DuplicateGroups(cs, key);
    }
  }

  /** The reported groups are exactly the keys of more than one choice, each with the names of
    * all its choices, and no key is reported twice. */
  lemma {:induction false} DuplicateGroupsMeans<K(!new)>(cs: seq<EnumChoice>, key: EnumChoice -> K, g: (K, seq<string>))
    ensures g in DuplicateGroups(cs, key) <==>
      (exists i :: 0 <= i < |cs| && key(cs[i]) == g.0) && g.1 == NamesWithKey(cs, key, g.0) && |g.1| > 1
  {
    var ks := GroupKeys(cs, key);
    var gs := GroupBy(cs, key);
    if g in DuplicateGroups(cs, key) {
      var x :| 0 <= x < |ks| && gs[x] == g;
      GroupKeysSound(cs, key, ks[x]);
    }
    if (exists i :: 0 <= i < |cs| && key(cs[i]) == g.0) && g.1 == NamesWithKey(cs, key, g.0) && |g.1| > 1 {
      var i :| 0 <= i < |cs| && key(cs[i]) == g.0;
      GroupKeysComplete(cs, key, i);
      var x :| 0 <= x < |ks| && ks[x] == g.0;
      assert gs[x] == g;
    }
  }

  // ---- the check ----

  /** The group key of an indexed enum: the choice's index. */
  function IndexKey(c: EnumChoice): int {
    c.index.GetOr(0)
  }

  /** The group key of a string enum: the choice's value, where `null` becomes the key `''`. */
  function ValueKey(c: EnumChoice): string {
    c.value.GetOr("")
  }

  /** An index group as its message prints it. */
  function IndexGroupText(g: (int, seq<string>)): (string, seq<string>) {
    (IntToString(g.0), g.1)
  }

  predicate Indexed(def: EnumDefinition) {
    |def.choices| > 0 && def.choices[0].index.Some?
  }

  /** The checks of `generateEnum` before anything is generated (:25-57). Reading `choices[0]` of
    * no choices is an error; an indexed enum groups by index, where a choice without one gives
    * the group key `''`, which the `int $index` closure refuses; otherwise the choices are grouped
    * by value. Every group of more than one choice is reported in one exception. */
  function CheckChoices(def: EnumDefinition): (o: Outcome<Error>)
    ensures o.Pass? ==> |def.choices| > 0
  {
    if |def.choices| == 0 then Fail(EmptyEnumChoices(def.name))
    else if Indexed(def) then
      if exists c :: c in def.choices && c.index.None? then Fail(EnumIndexTypeError(def.name))
      else
        var dups := DuplicateGroups(def.choices, IndexKey);
        if |dups| > 0 then Fail(DuplicateEnumChoices(def.name, Map(dups, IndexGroupText))) else Pass
    else
      var dups := DuplicateGroups(def.choices, ValueKey);
      if |dups| > 0 then Fail(DuplicateEnumChoices(def.name, dups)) else Pass
  }

  /** An indexed enum whose choices all have an index fails iff two choices share an index. */
  lemma {:induction false} IndexedDuplicates(def: EnumDefinition)
    requires Indexed(def) && forall i :: 0 <= i < |def.choices| ==> def.choices[i].index.Some?
    ensures CheckChoices(def).Fail? <==>
      exists i, j :: 0 <= i < j < |def.choices| && def.choices[i].index == def.choices[j].index
  {
    var cs := def.choices;
    DuplicatesIff(cs, IndexKey);
    assert !exists c :: c in cs && c.index.None?;
    forall i, j | 0 <= i < j < |cs| ensures (IndexKey(cs[i]) == IndexKey(cs[j])) == (cs[i].index == cs[j].index) {
    }
  }

  /** An indexed enum with a choice that has no index always fails, whatever the duplicates. */
  lemma {:induction false} IndexedNeedsEveryIndex(def: EnumDefinition, i: nat)
    requires Indexed(def) && i < |def.choices| && def.choices[i].index.None?
    ensures CheckChoices(def) == Fail(EnumIndexTypeError(def.name))
  {
    assert def.choices[i] in def.choices;
  }

  /** A string enum fails iff two choices share a value, where two choices without a value (or
    * one without and one with the value `''`) share the key `''`. */
  lemma {:induction false} ValueDuplicates(def: EnumDefinition)
    requires |def.choices| > 0 && !Indexed(def)
    ensures CheckChoices(def).Fail? <==>
      exists i, j :: 0 <= i < j < |def.choices| && ValueKey(def.choices[i]) == ValueKey(def.choices[j])
  {
    DuplicatesIff(def.choices, ValueKey);
  }

  // ---- the generated enum ----

  datatype CaseValue = IntCase(i: int) | StringCase(s: string)

  datatype EnumCase = EnumCase(name: string, value: Option<CaseValue>)

  /** What `generateEnum` adds to the namespace: the enum, its backing type, its cases and the
    * body of its static `fromName`. */
  datatype GeneratedEnum = GeneratedEnum(name: string, backingType: string, cases: seq<EnumCase>, fromNameBody: string)

  /** `addCase($choice->name, $choice->index ?? $choice->value)`. */
  function CaseOf(c: EnumChoice): (r: EnumCase)
    ensures r.name == c.name
    ensures c.index.Some? ==> r.value == Some(IntCase(c.index.value))
    ensures c.index.None? && c.value.Some? ==> r.value == Some(StringCase(c.value.value))
    ensures c.index.None? && c.value.None? ==> r.value.None?
  {
    EnumCase(c.name, if c.index.Some? then Some(IntCase(c.index.value))
                     else if c.value.Some? then Some(StringCase(c.value.value)) else None)
  }

  /** One arm of `fromName`'s `match`: the quoted name selects the case of that name. */
  function FromNameArm(name: string): string {
    Indent(1) + "'" + name + "' => self::" + name + "," + Eol
  }

  function ArmOf(c: EnumChoice): string {
    FromNameArm(c.name)
  }

  /** The body of `fromName`: a `match` with one arm per choice, in choice order. */
  function FromNameBody(cs: seq<EnumChoice>): string {
    "return match ($name) {" + Eol + Concat(Map(cs, ArmOf)) + "};"
  }

  /** The name an arm matches: the text between its first quotes. */
  function ArmMatched(arm: string): string {
    if |arm| < 18 then "" else arm[5..5 + (|arm| - 18) / 2]
  }

  /** The case an arm returns: the text after `self::`, before the comma. */
  function ArmCase(arm: string): string {
    if |arm| < 18 then "" else arm[16 + (|arm| - 18) / 2..|arm| - 2]
  }

  /** Reading an arm back: it matches exactly its choice's name and returns the case of that name. */
  lemma {:induction false} FromNameArmReads(name: string)
    ensures ArmMatched(FromNameArm(name)) == name
    ensures ArmCase(FromNameArm(name)) == name
  {
    var arm := FromNameArm(name);
    var k := |name|;
    assert |Indent(1)| == 4;
    assert arm == Indent(1) + "'" + name + "' => self::" + name + ",\n";
    assert |arm| == 18 + 2 * k;
    assert arm[5..5 + k] == name;
    assert arm[16 + k..16 + 2 * k] == name;
  }

  /** `generateEnum` (:23-97) as a value: the error of the check, or the generated enum. */
  function EnumOf(def: EnumDefinition): Result<GeneratedEnum, Error> {
    match CheckChoices(def)
    case Fail(e) => Err(e)
    case Pass =>
      Ok(GeneratedEnum(def.name, if Indexed(def) then "int" else "string",
                       Map(def.choices, CaseOf), FromNameBody(def.choices)))
  }

  /** An `int`-backed enum gets an integer value for every case: a choice without an index has
    * already failed the check. */
  lemma {:induction false} IntBackedCases(def: EnumDefinition)
    requires EnumOf(def).Ok? && EnumOf(def).value.backingType == "int"
    ensures forall i :: 0 <= i < |EnumOf(def).value.cases| ==>
      EnumOf(def).value.cases[i].value.Some? && EnumOf(def).value.cases[i].value.value.IntCase?
  {
    forall i | 0 <= i < |def.choices| ensures def.choices[i].index.Some? {
      assert def.choices[i] in def.choices;
    }
  }

  /** The cases, added one per choice (:67-70). */
  method AddCases(cs: seq<EnumChoice>) returns (cases: seq<EnumCase>)
    ensures |cases| == |cs|
    ensures forall i :: 0 <= i < |cs| ==> cases[i] == CaseOf(cs[i])
  {
    cases := [];
    var i := 0;
    while i < |cs|
      invariant 0 <= i <= |cs|
      invariant |cases| == i
      invariant forall k :: 0 <= k < i ==> cases[k] == CaseOf(cs[k])
    {
      cases := cases + [CaseOf(cs[i])];
      i := i + 1;
    }
  }

  /** The body of `fromName`, built with `.=` one arm per choice (:72-85). */
  method BuildFromName(cs: seq<EnumChoice>) returns (body: string)
    ensures body == FromNameBody(cs)
  {
    ghost var arms := Map(cs, ArmOf);
    var text := "";
    var i := 0;
    while i < |cs|
      invariant 0 <= i <= |cs|
      invariant text == Concat(arms[..i])
    {
      ConcatNext(arms, i);
      text := text + ArmOf(cs[i]);
      i := i + 1;
    }
    assert arms[..|cs|] == arms;
    body := "return match ($name) {" + Eol + text + "};";
  }

  /** `generateEnum` without the file write: the check, the backing type, the cases and the
    * `fromName` body. */
  method GenerateEnum(def: EnumDefinition) returns (r: Result<GeneratedEnum, Error>)
    ensures r == EnumOf(def)
  {
    var check := CheckChoices(def);
    if check.Fail? {
      return Err(check.error);
    }
    var backing := if def.choices[0].index.Some? then "int" else "string";
    var cases := AddCases(def.choices);
    var body := BuildFromName(def.choices);
    assert cases == Map(def.choices, CaseOf);
    r := Ok(GeneratedEnum(def.name, backing, cases, body));
  }
}
