/** The backed enums of src/Generator/Definition/Enum: each case with its backing string and
  * `::from`, which raises a ValueError (here `None`) for a string that is no case's value. */
module Enums {
  import opened Wrappers

  datatype PropertyType =
    | Id | Ulid | Timestamp | String | Text | Integer | Enum | JsonObject | JsonArray
    | Geolocation | Point | File | FileCollection | Image | ImageCollection
    | Video | VideoCollection | Address | MoneyAmount

  function PropertyTypeValue(t: PropertyType): string {
    match t
    case Id => "ID"
    case Ulid => "ULID"
    case Timestamp => "TIMESTAMP"
    case String => "STRING"
    case Text => "TEXT"
    case Integer => "INTEGER"
    case Enum => "ENUM"
    case JsonObject => "JSON_OBJECT"
    case JsonArray => "JSON_ARRAY"
    case Geolocation => "GEOLOCATION"
    case Point => "POINT"
    case File => "FILE"
    case FileCollection => "FILE[]"
    case Image => "IMAGE"
    case ImageCollection => "IMAGE[]"
    case Video => "VIDEO"
    case VideoCollection => "VIDEO[]"
    case Address => "ADDRESS"
    case MoneyAmount => "MONEY_AMOUNT"
  }

  /** `PropertyTypeEnum::from`. */
  function PropertyTypeFrom(s: string): (r: Option<PropertyType>)
    ensures r.Some? ==> PropertyTypeValue(r.value) == s
    ensures r.None? ==> forall t :: PropertyTypeValue(t) != s
  {
    match s
    case "ID" => Some(Id)
    case "ULID" => Some(Ulid)
    case "TIMESTAMP" => Some(Timestamp)
    case "STRING" => Some(String)
    case "TEXT" => Some(Text)
    case "INTEGER" => Some(Integer)
    case "ENUM" => Some(Enum)
    case "JSON_OBJECT" => Some(JsonObject)
    case "JSON_ARRAY" => Some(JsonArray)
    case "GEOLOCATION" => Some(Geolocation)
    case "POINT" => Some(Point)
    case "FILE" => Some(File)
    case "FILE[]" => Some(FileCollection)
    case "IMAGE" => Some(Image)
    case "IMAGE[]" => Some(ImageCollection)
    case "VIDEO" => Some(Video)
    case "VIDEO[]" => Some(VideoCollection)
    case "ADDRESS" => Some(Address)
    case "MONEY_AMOUNT" => Some(MoneyAmount)
    case _ => None
  }

  /** Every case is recovered from its own backing value. */
  lemma {:induction false} PropertyTypeRoundTrip(t: PropertyType)
    ensures PropertyTypeFrom(PropertyTypeValue(t)) == Some(t)
  {
    var r := PropertyTypeFrom(PropertyTypeValue(t));
    assert r.Some?;
    match t
    case Id =>
    case Ulid =>
    case Timestamp =>
    case String =>
    case Text =>
    case Integer =>
    case Enum =>
    case JsonObject =>
    case JsonArray =>
    case Geolocation =>
    case Point =>
    case File =>
    case FileCollection =>
    case Image =>
    case ImageCollection =>
    case Video =>
    case VideoCollection =>
    case Address =>
    case MoneyAmount =>
  }

  datatype RelationType = BelongsTo | HasMany | Polymorphic

  function RelationTypeValue(t: RelationType): string {
    match t
    case BelongsTo => "BELONGS_TO"
    case HasMany => "HAS_MANY"
    case Polymorphic => "POLYMORPHIC"
  }

  /** `RelationTypeEnum::from`. */
  function RelationTypeFrom(s: string): (r: Option<RelationType>)
    ensures r.Some? ==> RelationTypeValue(r.value) == s
    ensures r.None? ==> forall t :: RelationTypeValue(t) != s
  {
    match s
    case "BELONGS_TO" => Some(BelongsTo)
    case "HAS_MANY" => Some(HasMany)
    case "POLYMORPHIC" => Some(Polymorphic)
    case _ => None
  }

  datatype MixinType = GeolocationMixin | Review | SoftDelete

  function MixinTypeValue(t: MixinType): string {
    match t
    case GeolocationMixin => "GEOLOCATION"
    case Review => "REVIEW"
    case SoftDelete => "SOFT_DELETE"
  }

  /** `MixinTypeEnum::from`. */
  function MixinTypeFrom(s: string): (r: Option<MixinType>)
    ensures r.Some? ==> MixinTypeValue(r.value) == s
    ensures r.None? ==> forall t :: MixinTypeValue(t) != s
  {
    match s
    case "GEOLOCATION" => Some(GeolocationMixin)
    case "REVIEW" => Some(Review)
    case "SOFT_DELETE" => Some(SoftDelete)
    case _ => None
  }

  datatype RequestStatus = Include | IncludeConditionally | Exclude

  /** `in_array($status, [INCLUDE, INCLUDE_CONDITIONALLY])`, the test every request filter applies. */
  predicate IsIncluded(s: RequestStatus) {
    s == Include || s == IncludeConditionally
  }

  datatype EnumColor = Info | Success | Warning | Danger

  function EnumColorValue(c: EnumColor): string {
    match c
    case Info => "info"
    case Success => "success"
    case Warning => "warning"
    case Danger => "danger"
  }

  /** `EnumColorEnum::from`. */
  function EnumColorFrom(s: string): (r: Option<EnumColor>)
    ensures r.Some? ==> EnumColorValue(r.value) == s
    ensures r.None? ==> forall c :: EnumColorValue(c) != s
  {
    match s
    case "info" => Some(Info)
    case "success" => Some(Success)
    case "warning" => Some(Warning)
    case "danger" => Some(Danger)
    case _ => None
  }

  /** The request kinds a validation rule list is generated for (`RequestTypeEnum`). */
  datatype RequestType = Create | Update
}
