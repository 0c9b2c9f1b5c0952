/** The derived values of a property (src/Generator/Definition/PropertyDefinition.php, with
  * the overrides of EnumPropertyDefinition.php): validation rules, PHP doc, cast, column
  * and admin types, getter expressions, and the enum name, namespace and choices. */
module Properties {
  import opened Wrappers
  import opened Text
  import opened Seqs
  import opened Enums
  import opened Errors
  import opened Collaborators
  import opened Definitions

  predicate IsMediaType(t: PropertyType) {
    t == File || t == FileCollection || t == Image || t == ImageCollection || t == Video || t == VideoCollection
  }

  /** `isMedia`. */
  predicate IsMedia(p: PropertyDefinition) {
    IsMediaType(p.propertyType)
  }

  /** `isMediaCollection`: the collection types are media types. */
  predicate IsMediaCollection(p: PropertyDefinition): (r: bool)
    ensures r ==> IsMedia(p)
  {
    p.propertyType == FileCollection || p.propertyType == ImageCollection || p.propertyType == VideoCollection
  }

  /** `determineRulesRequired`. */
  function RulesRequired(p: PropertyDefinition, requestType: RequestType): (r: seq<string>)
    ensures r == ["required"] <==> requestType == Create && p.request.isRequired
    ensures r == ["required"] || r == ["nullable"]
  {
    if requestType == Create && p.request.isRequired then ["required"] else ["nullable"]
  }

  /** `determineRulesByPropertyType`: ENUM throws and MONEY_AMOUNT has no arm. */
  function RulesByPropertyType(t: PropertyType): (r: Result<seq<string>, Error>)
    ensures r.Err? <==> t == Enum || t == MoneyAmount
    ensures t == Id || t == Ulid ==> r == Ok(["ulid"])
    ensures t == String ==> r == Ok(["string", "max:255"])
    ensures IsMediaType(t) || t == JsonObject || t == JsonArray ==> r == Ok([])
    ensures r.Ok? ==> |r.value| <= 2
  {
    match t
    case Id => Ok(["ulid"])
    case Ulid => Ok(["ulid"])
    case Integer => Ok(["integer"])
    case String => Ok(["string", "max:255"])
    case Text => Ok(["string"])
    case Timestamp => Ok(["date"])
    case Geolocation => Ok(["array"])
    case Point => Ok(["array"])
    case Address => Ok(["array"])
    case JsonObject => Ok([])
    case JsonArray => Ok([])
    case File => Ok([])
    case FileCollection => Ok([])
    case Image => Ok([])
    case ImageCollection => Ok([])
    case Video => Ok([])
    case VideoCollection => Ok([])
    case Enum => Err(EnumPropertyExpected(PropertyTypeValue(t)))
    case MoneyAmount => Err(UnhandledMatch(PropertyTypeValue(t)))
  }

  /** The rule aliases of `generateRules`. */
  function RuleAlias(rule: string): string {
    if rule == "phone_number" then "App\\Request\\Rule\\PhoneNumberRule"
    else if rule == "color" then "App\\Rules\\HexadecimalColor"
    else if rule == "emoji" then "App\\Emoji\\Rule\\Emoji"
    else rule
  }

  /** `generateRules`: each user rule in order, the three aliases replaced by their classes. */
  function GenerateRules(rules: seq<string>): (r: seq<string>)
    ensures |r| == |rules|
    ensures forall i :: (0 <= i < |rules| && rules[i] != "phone_number" && rules[i] != "color" && rules[i] != "emoji")
                        ==> r[i] == rules[i]
    ensures forall i :: 0 <= i < |rules| && rules[i] == "color" ==> r[i] == "App\\Rules\\HexadecimalColor"
    ensures forall i :: 0 <= i < |rules| && rules[i] == "phone_number" ==> r[i] == "App\\Request\\Rule\\PhoneNumberRule"
    ensures forall i :: 0 <= i < |rules| && rules[i] == "emoji" ==> r[i] == "App\\Emoji\\Rule\\Emoji"
  {
    Map(rules, RuleAlias)
  }

  /** `getRules` of a plain, JSON or media property. */
  function PlainRules(p: PropertyDefinition, requestType: RequestType): (r: Result<seq<string>, Error>)
    ensures r.Err? <==> p.propertyType == Enum || p.propertyType == MoneyAmount
    ensures r.Ok? ==> |r.value| == 1 + |RulesByPropertyType(p.propertyType).value| + |p.rules|
    ensures r.Ok? ==> r.value[0] == RulesRequired(p, requestType)[0]
    ensures r.Ok? ==> r.value[1 + |RulesByPropertyType(p.propertyType).value|..] == GenerateRules(p.rules)
  {
    var typeRules :- RulesByPropertyType(p.propertyType);
    Ok(RulesRequired(p, requestType) + typeRules + GenerateRules(p.rules))
  }

  /** `class_basename` of an external enum name, or model name + studly(property) + `Enum`. */
  function GenerateEnumName(inf: Inflector, p: PropertyDefinition): (r: string)
    ensures p.kind.EnumKind? && p.kind.source.External? && Truthy(p.kind.source.enumName)
      ==> r == ClassBasename(p.kind.source.enumName) && '/' !in r
    ensures !(p.kind.EnumKind? && p.kind.source.External? && Truthy(p.kind.source.enumName))
      ==> r == p.owner.name + inf.studly(p.name) + "Enum"
  {
    if p.kind.EnumKind? && p.kind.source.External? && Truthy(p.kind.source.enumName) then
      ClassBasename(p.kind.source.enumName)
    else
      p.owner.name + inf.studly(p.name) + "Enum"
  }

  /** `explode('\\', $s)->slice(0, -1)->join('\\')`: a class name without its last segment. */
  function DropLastSegment(s: string): string {
    var pieces := Split(s, '\\');
    Join(pieces[..|pieces| - 1], "\\")
  }

  /** `generateEnumNamespace`: the external enum's namespace, else the model's `Enum\Generated`. */
  function GenerateEnumNamespace(p: PropertyDefinition): (r: string)
    ensures !(p.kind.EnumKind? && p.kind.source.External? && Truthy(p.kind.source.enumName))
      ==> r == p.owner.namespace + "\\" + "Enum" + "\\" + "Generated"
  {
    if p.kind.EnumKind? && p.kind.source.External? && Truthy(p.kind.source.enumName) then
      DropLastSegment(p.kind.source.enumName)
    else
      AppendSegments(p.owner.namespace, "Enum", "Generated");
      Join(Split(p.owner.namespace, '\\') + ["Enum", "Generated"], "\\")
  }

  /** `generateFullEnumName`. */
  function GenerateFullEnumName(inf: Inflector, p: PropertyDefinition): string {
    GenerateEnumNamespace(p) + "\\" + GenerateEnumName(inf, p)
  }

  /** `explode` on a backslash of a string without slashes, after mapping backslashes to slashes. */
  lemma {:induction false} SplitReplaced(s: string)
    requires '/' !in s
    ensures Split(ReplaceChar(s, '\\', '/'), '/') == Split(s, '\\')
    decreases |s|
  {
    if |s| > 0 {
      var t := ReplaceChar(s, '\\', '/');
      assert t[1..] == ReplaceChar(s[1..], '\\', '/');
      SplitReplaced(s[1..]);
    }
  }

  /** A backslash-separated name has at least two pieces, and its base name is the last. */
  lemma {:induction false} ExternalPieces(n: string)
    requires '/' !in n && '\\' in n && n[|n| - 1] != '\\'
    ensures |Split(n, '\\')| > 1 && ClassBasename(n) == Split(n, '\\')[|Split(n, '\\')| - 1]
  {
    var t := ReplaceChar(n, '\\', '/');
    assert TrimTrailing(t, '/') == t;
    SplitReplaced(n);
    var pieces := Split(n, '\\');
    if |pieces| == 1 {
      SplitPiecesFree(n, '\\');
      JoinSplit(n, '\\');
      assert false;
    }
  }

  /** An external enum class name `A\B\Name` is rebuilt from its namespace and base name. */
  lemma {:induction false} ExternalFullEnumName(inf: Inflector, p: PropertyDefinition)
    requires p.kind.EnumKind? && p.kind.source.External?
    requires Truthy(p.kind.source.enumName)
    requires '/' !in p.kind.source.enumName && '\\' in p.kind.source.enumName
    requires p.kind.source.enumName[|p.kind.source.enumName| - 1] != '\\'
    ensures GenerateFullEnumName(inf, p) == p.kind.source.enumName
  {
    var n := p.kind.source.enumName;
    ExternalPieces(n);
    var pieces := Split(n, '\\');
    var init := pieces[..|pieces| - 1];
    assert init + [pieces[|pieces| - 1]] == pieces;
    JoinSnoc(init, "\\", pieces[|pieces| - 1]);
    JoinSplit(n, '\\');
  }

  /** `isIndexed`: by the external enum's backing type, else whether the first choice has an index. */
  function IsIndexed(env: Environment, source: EnumSource): (r: Result<bool, Error>)
    ensures source.Inline? ==> r == Ok(|source.choices| > 0 && source.choices[0].index.Some?)
    ensures source.External? && Truthy(source.enumName) ==>
      (r.Ok? <==> source.enumName in env.externalEnums && env.externalEnums[source.enumName].backing.Some?)
    ensures r.Ok? && source.External? ==>
      source.enumName in env.externalEnums && r.value == (env.externalEnums[source.enumName].backing == Some(IntBacked))
  {
    match source
    case Inline(choices) => Ok(|choices| > 0 && choices[0].index.Some?)
    case External(enumName) =>
      if !Truthy(enumName) then Err(EnumWithoutChoices(enumName))
      else if enumName !in env.externalEnums then Err(UnknownEnumClass(enumName))
      else
        match env.externalEnums[enumName].backing
        case None => Err(UnknownEnumClass(enumName))
        case Some(b) => Ok(b == IntBacked)
  }

  /** `getChoices`: the inline choices, else the external enum's options without index or color. */
  function GetChoices(env: Environment, p: PropertyDefinition): (r: Result<seq<EnumChoice>, Error>)
    requires p.kind.EnumKind?
    ensures p.kind.source.Inline? ==> r == Ok(p.kind.source.choices)
    ensures p.kind.source.External? ==>
      (r.Ok? <==> Truthy(p.kind.source.enumName) && p.kind.source.enumName in env.externalEnums)
    ensures r.Ok? && p.kind.source.External? ==>
      var options := env.externalEnums[p.kind.source.enumName].options;
      |r.value| == |options| &&
      forall i :: 0 <= i < |options| ==> r.value[i] == EnumChoice(options[i].0, Some(options[i].1), None, None)
  {
    match p.kind.source
    case Inline(choices) => Ok(choices)
    case External(enumName) =>
      if !Truthy(enumName) then Err(EnumWithoutChoices(p.name))
      else if enumName !in env.externalEnums then Err(UnknownEnumClass(enumName))
      else Ok(Map(env.externalEnums[enumName].options, (o: (string, string)) => EnumChoice(o.0, Some(o.1), None, None)))
  }

  /** `generateEnumDefinition`: only inline choices make an enum to generate. */
  function GenerateEnumDefinition(inf: Inflector, p: PropertyDefinition): (r: Result<EnumDefinition, Error>)
    requires p.kind.EnumKind?
    ensures r.Ok? <==> p.kind.source.Inline?
    ensures r.Ok? ==> (r.value.choices == p.kind.source.choices
                       && r.value.name == GenerateEnumName(inf, p) && r.value.namespace == GenerateEnumNamespace(p))
  {
    match p.kind.source
    case Inline(choices) => Ok(EnumDefinition(GenerateEnumName(inf, p), GenerateEnumNamespace(p), choices))
    case External(_) => Err(EnumWithoutChoices(p.name))
  }

  /** A choice's `index ?? value` as it is joined into a string. */
  function ChoiceKey(c: EnumChoice): string {
    match c.index
    case Some(i) => IntToString(i)
    case None => c.value.GetOr("")
  }

  function ChoiceName(c: EnumChoice): string {
    c.name
  }

  /** `getRules` of an enum property: the required rule, one `in:` rule, the raw user rules. */
  function EnumRules(env: Environment, p: PropertyDefinition, requestType: RequestType): (r: Result<seq<string>, Error>)
    requires p.kind.EnumKind?
    ensures r.Ok? <==> GetChoices(env, p).Ok?
    ensures r.Ok? ==> (|r.value| == 2 + |p.rules| && r.value[0] == RulesRequired(p, requestType)[0]
                       && r.value[2..] == p.rules)
    ensures r.Ok? ==>
      var choices := GetChoices(env, p).value;
      r.value[1] == "in:" + Join(Map(choices, ChoiceName) + Map(choices, ChoiceKey), ",")
  {
    var choices :- GetChoices(env, p);
    Ok(RulesRequired(p, requestType) + ["in:" + Join(Map(choices, ChoiceName) + Map(choices, ChoiceKey), ",")] + p.rules)
  }

  /** `getRules`, dispatched on the property's class. */
  function GetRules(env: Environment, p: PropertyDefinition, requestType: RequestType): Result<seq<string>, Error> {
    if p.kind.EnumKind? then EnumRules(env, p, requestType) else PlainRules(p, requestType)
  }

  /** `toColumnType`: `id` only for the ID property named `id`; enums by whether they are indexed. */
  function ToColumnType(env: Environment, p: PropertyDefinition): (r: Result<string, Error>)
    ensures !p.kind.EnumKind? && p.propertyType == Id ==> r == Ok(if p.name == "id" then "id" else "unsignedBigInteger")
    ensures r == Ok("id") ==> p.propertyType == Id && p.name == "id"
    ensures !p.kind.EnumKind? && (p.propertyType == Enum || p.propertyType == MoneyAmount || IsMedia(p)) ==> r.Err?
    ensures p.kind.EnumKind? ==> (r.Ok? <==> IsIndexed(env, p.kind.source).Ok?)
    ensures p.kind.EnumKind? && r.Ok? ==> r.value == if IsIndexed(env, p.kind.source).value then "tinyInteger" else "string"
  {
    if p.kind.EnumKind? then
      var indexed :- IsIndexed(env, p.kind.source);
      Ok(if indexed then "tinyInteger" else "string")
    else
      match p.propertyType
      case Id => Ok(if p.name == "id" then "id" else "unsignedBigInteger")
      case Ulid => Ok("ulid")
      case Timestamp => Ok("timestamp")
      case String => Ok("string")
      case Text => Ok("longText")
      case Integer => Ok("integer")
      case JsonObject => Ok("json")
      case JsonArray => Ok("json")
      case Geolocation => Ok("json")
      case Point => Ok("json")
      case Address => Ok("json")
      case Enum => Err(EnumPropertyExpected(p.name))
      case _ => Err(UnhandledMatch(PropertyTypeValue(p.propertyType)))
  }

  /** `toPhpDocType`: the full enum class name for an enum property, else the type's PHP type. */
  function ToPhpDocType(inf: Inflector, p: PropertyDefinition): (r: Result<string, Error>)
    ensures p.kind.EnumKind? ==> r == Ok(GenerateFullEnumName(inf, p))
    ensures !p.kind.EnumKind? ==> (r.Err? <==> p.propertyType == Enum || p.propertyType == MoneyAmount)
    ensures !p.kind.EnumKind? && (p.propertyType == Id || p.propertyType == Integer) ==> r == Ok("int")
  {
    if p.kind.EnumKind? then Ok(GenerateFullEnumName(inf, p))
    else
      match p.propertyType
      case Id => Ok("int")
      case Integer => Ok("int")
      case Ulid => Ok("string")
      case String => Ok("string")
      case Text => Ok("string")
      case Timestamp => Ok("Illuminate\\Support\\Carbon")
      case JsonObject => Ok("object")
      case JsonArray => Ok("array")
      case Geolocation => Ok("App\\Geolocation\\Object\\Geolocation")
      case Point => Ok("App\\Point\\Object\\Point")
      case File => Ok("Spatie\\MediaLibrary\\MediaCollections\\Models\\Media")
      case Image => Ok("Spatie\\MediaLibrary\\MediaCollections\\Models\\Media")
      case Video => Ok("Spatie\\MediaLibrary\\MediaCollections\\Models\\Media")
      case FileCollection => Ok("Spatie\\MediaLibrary\\MediaCollections\\Models\\Collections\\MediaCollection")
      case ImageCollection => Ok("Spatie\\MediaLibrary\\MediaCollections\\Models\\Collections\\MediaCollection")
      case VideoCollection => Ok("Spatie\\MediaLibrary\\MediaCollections\\Models\\Collections\\MediaCollection")
      case Address => Ok("App\\Address\\Object\\Address")
      case Enum => Err(EnumPropertyExpected(p.name))
      case MoneyAmount => Err(UnhandledMatch(PropertyTypeValue(p.propertyType)))
  }

  /** `toCastType`: media types and MONEY_AMOUNT have no cast arm. */
  function ToCastType(inf: Inflector, p: PropertyDefinition): (r: Result<string, Error>)
    ensures p.kind.EnumKind? ==> r == Ok(GenerateFullEnumName(inf, p))
    ensures !p.kind.EnumKind? ==> (r.Err? <==> p.propertyType == Enum || p.propertyType == MoneyAmount || IsMedia(p))
    ensures !p.kind.EnumKind? && p.propertyType == Timestamp ==> r == Ok("datetime")
  {
    if p.kind.EnumKind? then Ok(GenerateFullEnumName(inf, p))
    else
      match p.propertyType
      case Id => Ok("int")
      case Integer => Ok("int")
      case Ulid => Ok("string")
      case String => Ok("string")
      case Text => Ok("string")
      case Timestamp => Ok("datetime")
      case JsonObject => Ok("object")
      case JsonArray => Ok("array")
      case Geolocation => Ok("App\\Geolocation\\Cast\\GeolocationCast")
      case Point => Ok("App\\Point\\Cast\\PointCast")
      case Address => Ok("App\\Address\\Cast\\AddressCast")
      case Enum => Err(EnumPropertyExpected(p.name))
      case _ => Err(UnhandledMatch(PropertyTypeValue(p.propertyType)))
  }

  /** `toNovaType`: an explicit (truthy) admin type wins; otherwise a field class per type. */
  function ToNovaType(p: PropertyDefinition): (r: Result<string, Error>)
    ensures p.nova.novaType.Some? && Truthy(p.nova.novaType.value) ==> r == Ok("Laravel\\Nova\\Fields\\" + p.nova.novaType.value)
    ensures !(p.nova.novaType.Some? && Truthy(p.nova.novaType.value)) ==> (r.Err? <==> p.propertyType == MoneyAmount)
    ensures !(p.nova.novaType.Some? && Truthy(p.nova.novaType.value)) && p.propertyType == Enum ==> r == Ok("App\\Nova\\Fields\\NovaEnum")
  {
    if p.nova.novaType.Some? && Truthy(p.nova.novaType.value) then Ok("Laravel\\Nova\\Fields\\" + p.nova.novaType.value)
    else
      match p.propertyType
      case Id => Ok("Laravel\\Nova\\Fields\\ID")
      case Ulid => Ok("Laravel\\Nova\\Fields\\Text")
      case String => Ok("Laravel\\Nova\\Fields\\Text")
      case Text => Ok("Laravel\\Nova\\Fields\\Textarea")
      case Integer => Ok("Laravel\\Nova\\Fields\\Number")
      case Enum => Ok("App\\Nova\\Fields\\NovaEnum")
      case JsonObject => Ok("Laravel\\Nova\\Fields\\Code")
      case JsonArray => Ok("Laravel\\Nova\\Fields\\Code")
      case Timestamp => Ok("Laravel\\Nova\\Fields\\DateTime")
      case File => Ok("Ebess\\AdvancedNovaMediaLibrary\\Fields\\Files")
      case FileCollection => Ok("Ebess\\AdvancedNovaMediaLibrary\\Fields\\Files")
      case Image => Ok("Ebess\\AdvancedNovaMediaLibrary\\Fields\\Images")
      case ImageCollection => Ok("Ebess\\AdvancedNovaMediaLibrary\\Fields\\Images")
      case Video => Ok("Ebess\\AdvancedNovaMediaLibrary\\Fields\\Media")
      case VideoCollection => Ok("Ebess\\AdvancedNovaMediaLibrary\\Fields\\Media")
      case Geolocation => Ok("Climbingatlas\\NovaFieldGeolocation\\Geolocation")
      case Point => Ok("Climbingatlas\\NovaFieldPoint\\Point")
      case Address => Ok("Climbingatlas\\NovaFieldAddress\\Address")
      case MoneyAmount => Err(UnhandledMatch(PropertyTypeValue(p.propertyType)))
  }

  /** `generateGetter`: enums read the case name, null-safely when the property is optional. */
  function GenerateGetter(p: PropertyDefinition, variable: string): (r: string)
    ensures p.propertyType == Enum && p.isRequired ==> r == variable + "->" + p.name + "->name"
    ensures p.propertyType == Enum && !p.isRequired ==> r == variable + "->" + p.name + "?->name"
    ensures p.propertyType != Enum ==> r == variable + "->" + p.name
  {
    if p.propertyType == Enum then
      if p.isRequired then variable + "->" + p.name + "->name" else variable + "->" + p.name + "?->name"
    else variable + "->" + p.name
  }
}
