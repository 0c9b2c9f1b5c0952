/** src/Generator/Model/GeneratorTypeScriptType.php without the file write: the client-side
  * type of a property and of a relation, the interface of a model, the enum of an enum
  * definition, and the content of the generated types file. */
module TypeScript {
  import opened Wrappers
  import opened Text
  import opened Seqs
  import opened Errors
  import opened Enums
  import opened Collaborators
  import opened Definitions
  import opened Properties
  import opened PropertyCollection
  import RelationCollection
  import opened Layout

  function Nullable(t: string): string {
    t + " | null"
  }

  // ---- property and relation types ----

  /** The fixed table of type names (:128-148); the ENUM type has no entry. */
  function TableName(t: PropertyType): Option<string> {
    match t
    case Id => Some("string")
    case Text => Some("string")
    case String => Some("string")
    case Timestamp => Some("string")
    case Ulid => Some("string")
    case Integer => Some("number")
    case JsonObject => Some("Record<string, string>")
    case JsonArray => Some("string[]")
    case Geolocation => Some("GeolocationType")
    case Point => Some("PointType")
    case File => Some("FileType")
    case FileCollection => Some("FileType[]")
    case Image => Some("ImageType")
    case ImageCollection => Some("ImageType[]")
    case Video => Some("VideoType")
    case VideoCollection => Some("VideoType[]")
    case Address => Some("AddressType")
    case MoneyAmount => Some("MoneyAmountType")
    case Enum => None
  }

  /** The type name of a property before nullability (:125-150): its enum's name for an enum
    * property, else the fixed table; the ENUM type on a property that is not an enum
    * property has no entry. */
  function PropertyTypeName(inf: Inflector, p: PropertyDefinition): (r: Result<string, Error>)
    ensures p.kind.EnumKind? ==> r == Ok(GenerateEnumName(inf, p))
    ensures !p.kind.EnumKind? ==> (r.Err? <==> p.propertyType == Enum)
    ensures !p.kind.EnumKind? && r.Ok? ==> Some(r.value) == TableName(p.propertyType)
  {
    if p.kind.EnumKind? then Ok(GenerateEnumName(inf, p))
    else
      match TableName(p.propertyType)
      case Some(name) => Ok(name)
      case None => Err(UnknownTypeScriptType(PropertyTypeValue(p.propertyType)))
  }

  predicate StringLike(t: PropertyType) {
    t == Id || t == Text || t == String || t == Timestamp || t == Ulid
  }

  predicate ListLike(t: PropertyType) {
    t == JsonArray || t == FileCollection || t == ImageCollection || t == VideoCollection
  }

  /** `s` ends with `[]`. */
  predicate EndsWithBrackets(s: string) {
    |s| >= 2 && s[|s| - 2] == '[' && s[|s| - 1] == ']'
  }

  /** Identifiers, texts, strings, timestamps and ULIDs are sent as strings, and nothing else
    * is; only integers are numbers. */
  lemma {:induction false} TableNameScalars(t: PropertyType)
    ensures TableName(t) == Some("string") <==> StringLike(t)
    ensures TableName(t) == Some("number") <==> t == Integer
  {
    if !StringLike(t) && t != Enum {
      assert TableName(t).value != "string";
    }
  }

  /** Exactly the JSON arrays and the media collections are lists. */
  lemma {:induction false} TableNameLists(t: PropertyType)
    requires t != Enum
    ensures EndsWithBrackets(TableName(t).value) <==> ListLike(t)
  {
    var n := TableName(t).value;
    if !ListLike(t) {
      assert n[|n| - 1] != ']';
    }
  }

  /** A property's type is bare iff it is required and not conditionally included in the get
    * request. */
  predicate Bare(p: PropertyDefinition) {
    p.isRequired && p.request.getStatus != IncludeConditionally
  }

  /** `determineTypeScriptTypeByProperty` (:123-161). */
  function TypeByProperty(inf: Inflector, p: PropertyDefinition): Result<string, Error> {
    var t :- PropertyTypeName(inf, p);
    if p.isRequired then
      if p.request.getStatus == IncludeConditionally then Ok(Nullable(t)) else Ok(t)
    else Ok(Nullable(t))
  }

  /** A property has a type iff its type name has one; the type is the bare name iff the
    * property is bare, and the name made nullable otherwise. */
  lemma {:induction false} TypeByPropertyShape(inf: Inflector, p: PropertyDefinition)
    ensures TypeByProperty(inf, p).Ok? <==> PropertyTypeName(inf, p).Ok?
    ensures TypeByProperty(inf, p).Ok? ==> (TypeByProperty(inf, p).value == PropertyTypeName(inf, p).value <==> Bare(p))
    ensures TypeByProperty(inf, p).Ok? && !Bare(p) ==> TypeByProperty(inf, p).value == Nullable(PropertyTypeName(inf, p).value)
  {
    if PropertyTypeName(inf, p).Ok? && !Bare(p) {
      var t := PropertyTypeName(inf, p).value;
      assert |Nullable(t)| > |t|;
    }
  }

  const PolymorphicClass: string := "SailingDeveloper\\LaravelGenerator\\Generator\\Definition\\RelationPolymorphicDefinition"

  /** `determineTypeScriptTypeByRelation` (:97-121): the counterpart's interface, as a list for
    * HAS_MANY; a polymorphic relation has no type. */
  function TypeByRelation(r: RelationDefinition): Result<string, Error> {
    match r.counterpart
    case Single(m) =>
      var typeName := m.name + "Type";
      (match r.relationType
       case BelongsTo => if r.isRequired && r.shouldEagerLoad then Ok(typeName) else Ok(Nullable(typeName))
       case HasMany => if r.shouldEagerLoad then Ok(typeName + "[]") else Ok(Nullable(typeName + "[]"))
       case Polymorphic => Err(UnsupportedRelationType("POLYMORPHIC")))
    case Multiple(_) => Err(UnsupportedRelationType(PolymorphicClass))
  }

  /** A relation has a type iff it has one counterpart and is not polymorphic: the
    * counterpart's interface, a list of them for HAS_MANY, made nullable unless a BELONGS_TO
    * relation is required and eager loaded or a HAS_MANY relation is eager loaded. */
  lemma {:induction false} TypeByRelationShape(r: RelationDefinition)
    ensures var t := TypeByRelation(r);
      (t.Ok? <==> r.counterpart.Single? && r.relationType != Polymorphic)
      && (t.Ok? && r.relationType == BelongsTo ==>
            (t.value == r.counterpart.model.name + "Type" <==> r.isRequired && r.shouldEagerLoad))
      && (t.Ok? && r.relationType == BelongsTo && !(r.isRequired && r.shouldEagerLoad) ==>
            t.value == Nullable(r.counterpart.model.name + "Type"))
      && (t.Ok? && r.relationType == HasMany ==>
            (t.value == r.counterpart.model.name + "Type[]" <==> r.shouldEagerLoad))
      && (t.Ok? && r.relationType == HasMany && !r.shouldEagerLoad ==>
            t.value == Nullable(r.counterpart.model.name + "Type[]"))
      && (t.Err? ==> t.error.UnsupportedRelationType?)
  {
    if r.counterpart.Single? {
      var n := r.counterpart.model.name + "Type";
      assert |Nullable(n)| > |n| && |n + "[]"| != |n| && |Nullable(n + "[]")| > |n + "[]"|;
    }
  }

  // ---- the interface of a model ----

  /** One member of a model's interface: a property or a relation. */
  datatype Member = PropertyMember(property: PropertyDefinition) | RelationMember(relation: RelationDefinition)

  /** The properties as members, in order. */
  function PropertyMembers(ps: seq<PropertyDefinition>): seq<Member>
    decreases |ps|
  {
    if |ps| == 0 then [] else PropertyMembers(ps[..|ps| - 1]) + [PropertyMember(ps[|ps| - 1])]
  }

  /** The relations as members, in order. */
  function RelationMembers(rs: seq<RelationDefinition>): seq<Member>
    decreases |rs|
  {
    if |rs| == 0 then [] else RelationMembers(rs[..|rs| - 1]) + [RelationMember(rs[|rs| - 1])]
  }

  /** The members in the order of the three loops of `generateTypeScriptTypeByModel`
    * (:71-91): the inherited properties in the get request, the relations in the get
    * request, the other properties in the get request. */
  function Members(ps: seq<PropertyDefinition>, rs: seq<RelationDefinition>): seq<Member> {
    PropertyMembers(GetAllInGetRequest(GetInherited(ps)))
    + RelationMembers(RelationCollection.GetAllInGetRequest(rs))
    + PropertyMembers(GetAllInGetRequest(GetNonInherited(ps)))
  }

  /** The property members are the properties in the get request, each once: the inherited
    * ones, then the rest. */
  lemma {:induction false} MembersCoverProperties(ps: seq<PropertyDefinition>)
    ensures multiset(GetAllInGetRequest(GetInherited(ps))) + multiset(GetAllInGetRequest(GetNonInherited(ps)))
         == multiset(GetAllInGetRequest(ps))
    ensures forall p :: p in GetAllInGetRequest(GetInherited(ps)) ==> p.isInherited
    ensures forall p :: p in GetAllInGetRequest(GetNonInherited(ps)) ==> !p.isInherited
  {
    var visible := Filter(ps, PropertyCollection.InGet);
    FilterFilter(ps, Inherited, PropertyCollection.InGet, InheritedInGet);
    FilterFilter(ps, PropertyCollection.InGet, Inherited, InheritedInGet);
    FilterFilter(ps, NotInherited, PropertyCollection.InGet, NotInheritedInGet);
    FilterFilter(ps, PropertyCollection.InGet, NotInherited, NotInheritedInGet);
    FilterPartition(visible, Inherited, NotInherited);
  }

  predicate InheritedInGet(p: PropertyDefinition) {
    Inherited(p) && PropertyCollection.InGet(p)
  }

  predicate NotInheritedInGet(p: PropertyDefinition) {
    NotInherited(p) && PropertyCollection.InGet(p)
  }

  function MemberName(m: Member): string {
    match m
    case PropertyMember(p) => p.request.name
    case RelationMember(r) => r.request.name
  }

  function MemberType(inf: Inflector, m: Member): Result<string, Error> {
    match m
    case PropertyMember(p) => TypeByProperty(inf, p)
    case RelationMember(r) => TypeByRelation(r)
  }

  /** `name: type;` on a line of its own (:73-75, :80-82, :87-89). */
  function MemberLine(inf: Inflector, m: Member): Result<string, Error> {
    var t :- MemberType(inf, m);
    Ok(Indent(1) + MemberName(m) + ": " + t + ";" + Eol)
  }

  /** `MemberLine` as a value, for the generic loop. */
  function LineOf(inf: Inflector): Member -> Result<string, Error> {
    (m: Member) => MemberLine(inf, m)
  }

  function InterfaceHead(name: string): string {
    "export interface " + name + "Type {" + Eol
  }

  /** `generateTypeScriptTypeByModel` (:67-95). */
  function InterfaceOf(inf: Inflector, name: string, st: ModelState): Result<string, Error> {
    var body :- LinesText(LineOf(inf), Members(st.properties, st.relations));
    Ok(InterfaceHead(name) + body + "}")
  }

  /** A model has an interface iff every member in its get request has a type; otherwise the
    * error is that of the first member without one. */
  lemma {:induction false} InterfaceOfErr(inf: Inflector, name: string, st: ModelState)
    ensures var ms := Members(st.properties, st.relations);
      (InterfaceOf(inf, name, st).Err? <==> exists i :: 0 <= i < |ms| && MemberType(inf, ms[i]).Err?)
      && (InterfaceOf(inf, name, st).Err? ==>
            exists i :: 0 <= i < |ms| && MemberType(inf, ms[i]) == Err(InterfaceOf(inf, name, st).error)
                        && forall j :: 0 <= j < i ==> MemberType(inf, ms[j]).Ok?)
  {
    var ms := Members(st.properties, st.relations);
    LinesErr(LineOf(inf), ms);
    assert forall i :: 0 <= i < |ms| ==> (LineOf(inf)(ms[i]).Err? <==> MemberType(inf, ms[i]).Err?);
    assert forall i :: 0 <= i < |ms| && LineOf(inf)(ms[i]).Err? ==> LineOf(inf)(ms[i]).error == MemberType(inf, ms[i]).error;
  }

  /** With an interface, the body holds one line per member, in member order, each naming the
    * member and its type. */
  lemma {:induction false} InterfaceOfOk(inf: Inflector, name: string, st: ModelState)
    requires InterfaceOf(inf, name, st).Ok?
    ensures var ms := Members(st.properties, st.relations);
      var lines := Lines(LineOf(inf), ms).value;
      |lines| == |ms|
      && InterfaceOf(inf, name, st).value == InterfaceHead(name) + Concat(lines) + "}"
      && forall i :: 0 <= i < |ms| ==> (MemberType(inf, ms[i]).Ok?
            && lines[i] == Indent(1) + MemberName(ms[i]) + ": " + MemberType(inf, ms[i]).value + ";" + Eol)
  {
    var ms := Members(st.properties, st.relations);
    LinesOk(LineOf(inf), ms);
  }

  /** `generateTypeScriptTypeByModel`: the head, the three member loops, the closing brace. */
  method GenerateInterface(inf: Inflector, name: string, st: ModelState) returns (r: Result<string, Error>)
    ensures r == InterfaceOf(inf, name, st)
  {
    var inherited := PropertyMembers(GetAllInGetRequest(GetInherited(st.properties)));
    var relations := RelationMembers(RelationCollection.GetAllInGetRequest(st.relations));
    var others := PropertyMembers(GetAllInGetRequest(GetNonInherited(st.properties)));
    var body :- AppendLinesInTurn(LineOf(inf), inherited, relations, others);
    r := Ok(InterfaceHead(name) + body + "}");
  }

  // ---- the enum of an enum definition ----

  /** `$choice->value ?: $choice->name`: a falsy value (none, `''` or `'0'`) falls back to the name. */
  function EnumValue(c: EnumChoice): string {
    if c.value.Some? && Truthy(c.value.value) then c.value.value else c.name
  }

  /** `Name = "value",` on a line of its own (:168). */
  function EnumMemberLine(c: EnumChoice): string {
    Indent(1) + c.name + " = \"" + EnumValue(c) + "\"," + Eol
  }

  /** `generateTypeScriptTypeByEnumDefinition` (:163-174). */
  function EnumText(def: EnumDefinition): string {
    "export enum " + def.name + " {" + Eol + Concat(Map(def.choices, EnumMemberLine)) + "}"
  }

  /** Reading an enum line back: it names the choice, and its quoted value is the choice's
    * value when that is truthy and the choice's name otherwise. */
  lemma {:induction false} EnumMemberLineReads(c: EnumChoice)
    ensures var line := EnumMemberLine(c);
      |line| == |c.name| + |EnumValue(c)| + 11
      && line[4..4 + |c.name|] == c.name
      && line[8 + |c.name|..|line| - 3] == EnumValue(c)
    ensures c.value.Some? && Truthy(c.value.value) ==> EnumValue(c) == c.value.value
    ensures !(c.value.Some? && Truthy(c.value.value)) ==> EnumValue(c) == c.name
  {
    var line := EnumMemberLine(c);
    assert |Indent(1)| == 4;
    assert line == Indent(1) + c.name + " = \"" + (EnumValue(c) + "\",\n");
  }

  /** A choice whose value is `'0'` is sent under its name. */
  lemma {:induction false} EnumValueZero(name: string, index: Option<int>, color: Option<EnumColor>)
    ensures EnumValue(EnumChoice(name, Some("0"), index, color)) == name
  {
  }

  /** `generateTypeScriptTypeByEnumDefinition`: one line per choice, in choice order. */
  method GenerateEnumType(def: EnumDefinition) returns (content: string)
    ensures content == EnumText(def)
  {
    ghost var lines := Map(def.choices, EnumMemberLine);
    var text := "";
    var i := 0;
    while i < |def.choices|
      invariant 0 <= i <= |def.choices|
      invariant text == Concat(lines[..i])
    {
      ConcatNext(lines, i);
      text := text + EnumMemberLine(def.choices[i]);
      i := i + 1;
    }
    assert lines[..|def.choices|] == lines;
    content := "export enum " + def.name + " {" + Eol + text + "}";
  }

  // ---- the types file ----

  /** `generateEnumDefinition` for a property `generateEnumDefinitions` keeps: one with inline choices. */
  function InlineEnumDefinition(inf: Inflector, p: PropertyDefinition): (r: EnumDefinition)
    ensures p.kind.EnumKind? && p.kind.source.Inline? ==> GenerateEnumDefinition(inf, p) == Ok(r)
  {
    EnumDefinition(GenerateEnumName(inf, p), GenerateEnumNamespace(p),
                   if p.kind.EnumKind? && p.kind.source.Inline? then p.kind.source.choices else [])
  }

  /** `generateEnumDefinitions` (in PropertyCollection.php): one definition per enum property
    * with inline choices. */
  function EnumDefinitions(inf: Inflector, ps: seq<PropertyDefinition>): seq<EnumDefinition> {
    Map(GetEnumsToGenerate(ps), (p: PropertyDefinition) => InlineEnumDefinition(inf, p))
  }

  /** The enum text of each definition, in order. */
  function EnumTextsOf(defs: seq<EnumDefinition>): seq<string>
    decreases |defs|
  {
    if |defs| == 0 then [] else EnumTextsOf(defs[..|defs| - 1]) + [EnumText(defs[|defs| - 1])]
  }

  function EnumTexts(inf: Inflector, ps: seq<PropertyDefinition>): seq<string> {
    EnumTextsOf(EnumDefinitions(inf, ps))
  }

  /** What one model adds to the file: its interface, then one enum per enum property with
    * inline choices (:45-49). */
  function ModelContents(inf: Inflector, name: string, st: ModelState): Result<seq<string>, Error> {
    var i :- InterfaceOf(inf, name, st);
    Ok([i] + EnumTexts(inf, st.properties))
  }

  /** `ModelContents` as a value, for the generic loop. */
  function ContentsOf(inf: Inflector): ((string, ModelState)) -> Result<seq<string>, Error> {
    (m: (string, ModelState)) => ModelContents(inf, m.0, m.1)
  }

  /** `$allTypeContent` after the loop over the models, in model order. */
  function TypeContents(inf: Inflector, models: seq<(string, ModelState)>): Result<seq<string>, Error> {
    Pieces(ContentsOf(inf), models)
  }

  /** The content of the types file: the pieces separated by a blank line (:52). */
  function TypeFile(inf: Inflector, models: seq<(string, ModelState)>): Result<string, Error> {
    var parts :- TypeContents(inf, models);
    Ok(Join(parts, Eol + Eol))
  }

  /** The file holds an interface for each model and fails iff some model's interface does. */
  lemma {:induction false} TypeContentsInterfaces(inf: Inflector, models: seq<(string, ModelState)>)
    ensures TypeContents(inf, models).Ok? <==> forall i :: 0 <= i < |models| ==> InterfaceOf(inf, models[i].0, models[i].1).Ok?
    ensures TypeContents(inf, models).Ok? ==>
      forall i :: 0 <= i < |models| ==> InterfaceOf(inf, models[i].0, models[i].1).value in TypeContents(inf, models).value
  {
    PiecesOk(ContentsOf(inf), models);
    forall i | 0 <= i < |models|
      ensures ContentsOf(inf)(models[i]).Ok? <==> InterfaceOf(inf, models[i].0, models[i].1).Ok?
      ensures ContentsOf(inf)(models[i]).Ok? ==>
        |ContentsOf(inf)(models[i]).value| > 0
        && ContentsOf(inf)(models[i]).value[0] == InterfaceOf(inf, models[i].0, models[i].1).value
    {
    }
  }

  /** The enums of one model appended to the contents (:47-49). */
  method AppendEnums(defs: seq<EnumDefinition>, contents: seq<string>) returns (contents': seq<string>)
    ensures contents' == contents + EnumTextsOf(defs)
  {
    contents' := contents;
    var i := 0;
    while i < |defs|
      invariant 0 <= i <= |defs|
      invariant contents' == contents + EnumTextsOf(defs[..i])
    {
      var text := GenerateEnumType(defs[i]);
      assert defs[..i + 1][..i] == defs[..i];
      AppendAssoc(contents, EnumTextsOf(defs[..i]), [text]);
      contents' := contents' + [text];
      i := i + 1;
    }
    assert defs[..i] == defs;
  }

  /** One model of the loop of `generateTypeScriptTypeFile`. */
  method AddModel(inf: Inflector, models: seq<(string, ModelState)>, i: nat, contents: seq<string>)
    returns (r: Result<seq<string>, Error>)
    requires i < |models| && TypeContents(inf, models[..i]) == Ok(contents)
    ensures r == TypeContents(inf, models[..i + 1])
  {
    assert models[..i + 1][..i] == models[..i];
    var iface := GenerateInterface(inf, models[i].0, models[i].1);
    if iface.Err? {
      return Err(iface.error);
    }
    var more := AppendEnums(EnumDefinitions(inf, models[i].1.properties), contents + [iface.value]);
    AppendAssoc(contents, [iface.value], EnumTexts(inf, models[i].1.properties));
    r := Ok(more);
  }

  /** `generateTypeScriptTypeFile` without the path and the write (:39-52). */
  method GenerateTypeFile(inf: Inflector, models: seq<(string, ModelState)>) returns (r: Result<string, Error>)
    ensures r == TypeFile(inf, models)
  {
    var contents: seq<string> := [];
    var i := 0;
    while i < |models|
      invariant 0 <= i <= |models|
      invariant TypeContents(inf, models[..i]) == Ok(contents)
    {
      var next := AddModel(inf, models, i, contents);
      if next.Err? {
        PiecesAbort(ContentsOf(inf), models, i + 1);
        return Err(next.error);
      }
      contents := next.value;
      i := i + 1;
    }
    assert models[..i] == models;
    r := Ok(Join(contents, Eol + Eol));
  }
}
