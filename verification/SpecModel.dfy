/** Event specifications and the changes detected between two of their versions. */
module SpecModel {
  import opened Common

  // The source has one string for each type and each status; the names of the known
  // ones are not names of unknown ones. "null" has no constant in the source but is a
  // type JSON Schema knows.

  datatype AnyType =
    | StringType
    | NumberType
    | IntegerType
    | BooleanType
    | ObjectType
    | ArrayType
    | NullType
    | UnknownType(name: string)

  type PropertyType = t: AnyType | t.UnknownType? ==>
    t.name !in ["string", "number", "integer", "boolean", "object", "array", "null"]
    witness StringType

  datatype AnyStatus = Draft | Active | Deprecated | Deleted | UnknownStatus(name: string)

  type EventStatus = s: AnyStatus | s.UnknownStatus? ==> s.name !in ["draft", "active", "deprecated", "deleted"]
    witness Draft

  /** A property of an event. An absent pattern is the empty string, an absent
      enumeration the empty sequence. */
  datatype PropertyDef = PropertyDef(
    ptype: PropertyType,
    required: bool,
    description: string,
    enumValues: seq<string>,
    pattern: string,
    minimum: Option<real>,
    maximum: Option<real>)

  datatype ProviderOverride = ProviderOverride(eventName: string, propertyMap: map<string, string>)

  datatype Sampling = Sampling(strategy: string, rate: real)

  datatype EventDef = EventDef(
    name: string,
    displayName: string,
    description: string,
    version: string,
    status: EventStatus,
    namespace: string,
    tags: seq<string>,
    owner: string,
    eventType: string,
    eventName: string,
    properties: map<string, PropertyDef>,
    contextProperties: seq<string>,
    providerOverrides: map<string, ProviderOverride>,
    destinations: seq<string>,
    sampling: Option<Sampling>,
    propertyPriority: string)

  datatype ChangeKind =
    | AddRequiredProp
    | RemoveProp
    | RenameProp
    | TypeChanged
    | MakeRequired
    | RemoveEnumValue
    | RenameEvent
    | EventTypeChanged
    | StatusChanged
    | SamplingModified
    | ContextPropsModified
    | ProviderOverridesModified
    | MakeOptional
    | AddOptionalProp
    | AddEnumValue
    | DescriptionOnly
    | MetadataOnly
    | DestinationsModified
    | PropertyPriorityChanged

  /** One detected difference, with the two texts shown for it. */
  datatype Change = Change(kind: ChangeKind, property: string, breaking: bool, from: string, to: string)

  function TypeName(t: PropertyType): string {
    match t
    case StringType => "string"
    case NumberType => "number"
    case IntegerType => "integer"
    case BooleanType => "boolean"
    case ObjectType => "object"
    case ArrayType => "array"
    case NullType => "null"
    case UnknownType(name) => name
  }

  function StatusName(s: EventStatus): string {
    match s
    case Draft => "draft"
    case Active => "active"
    case Deprecated => "deprecated"
    case Deleted => "deleted"
    case UnknownStatus(name) => name
  }

  function Join(parts: seq<string>, separator: string): string {
    if |parts| == 0 then ""
    else if |parts| == 1 then parts[0]
    else parts[0] + separator + Join(parts[1..], separator)
  }

  /** Types are told apart exactly by their names, as the source does. */
  lemma TypesAreTheirNames(t: PropertyType, u: PropertyType)
    ensures TypeName(t) == TypeName(u) <==> t == u
  {
  }

  lemma StatusesAreTheirNames(s: EventStatus, u: EventStatus)
    ensures StatusName(s) == StatusName(u) <==> s == u
  {
  }

  /** The type and the status a string stands for. */
  function TypeOf(name: string): PropertyType {
    if name == "string" then StringType
    else if name == "number" then NumberType
    else if name == "integer" then IntegerType
    else if name == "boolean" then BooleanType
    else if name == "object" then ObjectType
    else if name == "array" then ArrayType
    else if name == "null" then NullType
    else UnknownType(name)
  }

  function StatusOf(name: string): EventStatus {
    if name == "draft" then Draft
    else if name == "active" then Active
    else if name == "deprecated" then Deprecated
    else if name == "deleted" then Deleted
    else UnknownStatus(name)
  }

  lemma NamesRoundTrip(name: string)
    ensures TypeName(TypeOf(name)) == name && StatusName(StatusOf(name)) == name
  {
  }

  lemma {:induction false} JoinSnoc(parts: seq<string>, last: string, separator: string)
    ensures Join([last], separator) == last
    ensures parts != [] ==> Join(parts + [last], separator) == Join(parts, separator) + separator + last
  {
    if |parts| == 1 {
      assert (parts + [last])[1..] == [last];
    } else if |parts| > 1 {
      assert (parts + [last])[1..] == parts[1..] + [last];
      JoinSnoc(parts[1..], last, separator);
      assert parts[0] + separator + (Join(parts[1..], separator) + separator + last)
        == parts[0] + separator + Join(parts[1..], separator) + separator + last;
    }
  }
}
