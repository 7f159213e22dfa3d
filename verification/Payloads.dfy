/** The JSON Schema (Draft-07) document built from an event, and what it accepts. */
module Payloads {
  import opened Common
  import opened SpecModel

  datatype Json =
    | JNull
    | JBool(b: bool)
    | JNumber(n: real)
    | JString(s: string)
    | JArray(items: seq<Json>)
    | JObject(fields: map<string, Json>)

  type Payload = map<string, Json>

  /** The regular-expression engine: which patterns compile and what they match. */
  datatype Regex = Regex(compiles: string -> bool, matches: (string, string) -> bool)

  // --------------------------------------------------------- the document built

  datatype PropSchema = PropSchema(
    ptype: PropertyType,
    enumValues: Option<seq<string>>,
    pattern: Option<string>,
    minimum: Option<real>,
    maximum: Option<real>)

  datatype Schema = Schema(title: string, properties: map<string, PropSchema>, required: seq<string>)

  function BuildPropertySchema(p: PropertyDef): PropSchema {
    PropSchema(
      p.ptype,
      if |p.enumValues| > 0 then Some(p.enumValues) else None,
      if p.pattern != "" then Some(p.pattern) else None,
      p.minimum,
      p.maximum)
  }

  // ------------------------------------------------------ Draft-07 validation

  /** Section 6.1.1: integer means a number with zero fractional part. */
  predicate HasType(v: Json, t: PropertyType) {
    match t
    case StringType => v.JString?
    case NumberType => v.JNumber?
    case IntegerType => v.JNumber? && v.n == v.n.Floor as real
    case BooleanType => v.JBool?
    case ObjectType => v.JObject?
    case ArrayType => v.JArray?
    case NullType => v.JNull?
    case UnknownType(_) => false
  }

  /** Sections 6.1.2 (enum), 6.2.2 and 6.2.4 (maximum, minimum), 6.3.3 (pattern). */
  predicate ValidValue(re: Regex, s: PropSchema, v: Json) {
    && HasType(v, s.ptype)
    && (s.enumValues.Some? ==> v.JString? && v.s in s.enumValues.value)
    && (s.pattern.Some? && v.JString? ==> re.matches(s.pattern.value, v.s))
    && (s.minimum.Some? && v.JNumber? ==> s.minimum.value <= v.n)
    && (s.maximum.Some? && v.JNumber? ==> v.n <= s.maximum.value)
  }

  /** The document compiles: every type is one Draft-07 knows, every pattern parses. */
  predicate SchemaCompiles(re: Regex, s: Schema) {
    forall n :: n in s.properties ==>
      !s.properties[n].ptype.UnknownType?
      && (s.properties[n].pattern.Some? ==> re.compiles(s.properties[n].pattern.value))
  }

  /** Sections 6.5.3 (required), 6.5.4 (properties); additional properties are allowed. */
  predicate Validates(re: Regex, s: Schema, payload: Payload) {
    && SchemaCompiles(re, s)
    && (forall n :: n in s.required ==> n in payload)
    && (forall n :: n in s.properties && n in payload ==> ValidValue(re, s.properties[n], payload[n]))
  }

  // ----------------------------------------------- what the event definition means

  /** A value a property definition allows. */
  predicate AllowsValue(re: Regex, p: PropertyDef, v: Json) {
    && HasType(v, p.ptype)
    && (p.enumValues != [] ==> v.JString? && v.s in p.enumValues)
    && (p.pattern != "" && v.JString? ==> re.matches(p.pattern, v.s))
    && (p.minimum.Some? && v.JNumber? ==> p.minimum.value <= v.n)
    && (p.maximum.Some? && v.JNumber? ==> v.n <= p.maximum.value)
  }

  predicate WellFormed(re: Regex, props: map<string, PropertyDef>) {
    forall n :: n in props ==>
      !props[n].ptype.UnknownType? && (props[n].pattern != "" ==> re.compiles(props[n].pattern))
  }

  /** A payload the event's properties accept. */
  predicate Accepts(re: Regex, props: map<string, PropertyDef>, payload: Payload) {
    && WellFormed(re, props)
    && (forall n :: n in props && props[n].required ==> n in payload)
    && (forall n :: n in props && n in payload ==> AllowsValue(re, props[n], payload[n]))
  }

  /** A schema document says exactly what the event's properties mean. */
  ghost predicate Describes(s: Schema, props: map<string, PropertyDef>) {
    && s.properties.Keys == props.Keys
    && (forall n :: n in props ==> s.properties[n] == BuildPropertySchema(props[n]))
    && (forall n :: n in s.required <==> n in props && props[n].required)
  }

  /** Properties come out of the map in any order; the meaning does not depend on it. */
  method BuildJSONSchema(def: EventDef) returns (s: Schema)
    ensures Describes(s, def.properties) && s.title == def.eventName
  {
    var properties: map<string, PropSchema> := map[];
    var required: seq<string> := [];
    var rest := def.properties.Keys;
    while rest != {}
      invariant rest <= def.properties.Keys
      invariant properties.Keys == def.properties.Keys - rest
      invariant forall n :: n in properties ==> properties[n] == BuildPropertySchema(def.properties[n])
      invariant forall n :: n in required <==> n in properties && def.properties[n].required
    {
      var n :| n in rest;
      rest := rest - {n};
      properties := properties[n := BuildPropertySchema(def.properties[n])];
      if def.properties[n].required {
        required := required + [n];
      }
    }
    s := Schema(def.eventName, properties, required);
  }

  /** Validation against the built document is acceptance by the definition. */
  lemma ValidationIsAcceptance(re: Regex, s: Schema, props: map<string, PropertyDef>, payload: Payload)
    requires Describes(s, props)
    ensures Validates(re, s, payload) <==> Accepts(re, props, payload)
  {
    forall n | n in props
      ensures SchemaCompiles(re, s) ==>
        !props[n].ptype.UnknownType? && (props[n].pattern != "" ==> re.compiles(props[n].pattern))
    {
      assert n in s.properties;
    }
    forall n | n in props && n in payload
      ensures ValidValue(re, s.properties[n], payload[n]) <==> AllowsValue(re, props[n], payload[n])
    {
    }
    if Accepts(re, props, payload) {
      assert SchemaCompiles(re, s);
      assert Validates(re, s, payload);
    }
    if Validates(re, s, payload) {
      assert forall n :: n in props && n in payload ==> n in s.properties;
      assert Accepts(re, props, payload);
    }
  }

  /** Read from the values: which types each kind of value has. */
  lemma TypesOfValues(v: Json, t: PropertyType)
    ensures HasType(v, t) <==>
      match v
      case JNull => t == NullType
      case JBool(_) => t == BooleanType
      case JNumber(n) => t == NumberType || (t == IntegerType && n.Floor as real == n)
      case JString(_) => t == StringType
      case JArray(_) => t == ArrayType
      case JObject(_) => t == ObjectType
  {
  }
}
