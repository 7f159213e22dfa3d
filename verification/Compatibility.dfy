/** What a non-breaking diff promises about payloads already being sent. */
module Compatibility {
  import opened Common
  import opened SpecModel
  import opened Names
  import opened SpecDiff
  import opened Payloads
  import SchemaVersions
  import VersionBump

  ghost predicate NoBreaking(changes: seq<Change>) {
    forall c :: c in changes ==> !c.breaking
  }

  // --------------------------------------------------- when a diff is non-breaking

  lemma {:induction false} RenamesBreak(pairs: seq<(string, string)>)
    ensures NoBreaking(RenameChanges(pairs)) <==> pairs == []
  {
    if pairs != [] {
      var last := RenameChange(pairs[|pairs| - 1]);
      assert last in RenameChanges(pairs);
    }
  }

  lemma {:induction false} RemovalsBreak(removed: seq<string>, matched: set<string>)
    ensures NoBreaking(RemovedChanges(removed, matched)) <==> forall n :: n in removed ==> n in matched
  {
    if removed != [] {
      var front, last := removed[..|removed| - 1], removed[|removed| - 1];
      assert removed == front + [last];
      RemovalsBreak(front, matched);
      if last !in matched {
        assert Change(RemoveProp, last, true, "", "") in RemovedChanges(removed, matched);
      }
      assert forall c :: c in RemovedChanges(front, matched) ==> c in RemovedChanges(removed, matched);
    }
  }

  lemma {:induction false} AdditionsBreak(added: seq<string>, matched: set<string>, to: Props)
    requires forall n :: n in added ==> n in to
    ensures NoBreaking(AddedChanges(added, matched, to)) <==> forall n :: n in added ==> n in matched || !to[n].required
  {
    if added != [] {
      var front, last := added[..|added| - 1], added[|added| - 1];
      assert added == front + [last];
      AdditionsBreak(front, matched, to);
      if last !in matched && to[last].required {
        assert Change(AddRequiredProp, last, true, "", "") in AddedChanges(added, matched, to);
      }
      assert forall c :: c in AddedChanges(front, matched, to) ==> c in AddedChanges(added, matched, to);
    }
  }

  lemma {:induction false} SharedBreak(names: seq<string>, from: Props, to: Props)
    requires forall n :: n in names ==> n in from
    ensures NoBreaking(SharedChanges(names, from, to)) <==>
      forall n :: n in names ==> NoBreaking(SharedChange(n, from, to))
  {
    if names != [] {
      var front, last := names[..|names| - 1], names[|names| - 1];
      assert names == front + [last];
      SharedBreak(front, from, to);
      assert SharedChanges(names, from, to) == SharedChanges(front, from, to) + SharedChange(last, from, to);
    }
  }

  /** The changes to the event itself that break: a rename, another call type, or a
      deletion. */
  ghost predicate EventKept(from: EventDef, to: EventDef) {
    !Renamed(from, to) && from.eventType == to.eventType && (from.status == to.status || to.status != Deleted)
  }

  lemma EventBreaks(from: EventDef, to: EventDef)
    ensures NoBreaking(EventChanges(from, to)) <==> EventKept(from, to)
  {
    var id, rt := IdentityChanges(from, to), RoutingChanges(from, to);
    assert NoBreaking(rt);
    var rename := When(Renamed(from, to), Change(RenameEvent, "event_name", true, from.eventName, to.eventName));
    var retype := When(from.eventType != to.eventType,
                       Change(EventTypeChanged, "type", true, from.eventType, to.eventType));
    var status := When(from.status != to.status, StatusChange(from, to));
    assert forall c :: c in rename || c in retype || c in status ==> c in id && c in EventChanges(from, to);
    if Renamed(from, to) { assert rename[0] in rename; }
    if from.eventType != to.eventType { assert retype[0] in retype; }
    if from.status != to.status { assert status[0] in status; }
  }

  /** What a reported property change tells: no change of type, no new requirement,
      and no lost enum value unless it was made optional at the same time. */
  ghost predicate PropKept(p: PropertyDef, q: PropertyDef) {
    && p.ptype == q.ptype
    && (q.required ==> p.required)
    && (p.required == q.required ==> Without(p.enumValues, q.enumValues) == [])
  }

  lemma PropBreaks(n: string, p: PropertyDef, q: PropertyDef)
    ensures NoBreaking(PropChanges(n, p, q)) <==> PropKept(p, q)
  {
    if |PropChanges(n, p, q)| > 0 {
      assert PropChanges(n, p, q)[0] in PropChanges(n, p, q);
    }
  }

  /** Nothing was removed exactly when no rename and no removal is reported. */
  lemma NothingRemoved(f: Props, t: Props)
    ensures var pairs := RenamePairs(f, t);
      NoBreaking(RenameChanges(pairs)) && NoBreaking(RemovedChanges(RemovedNames(f, t), Firsts(pairs)))
      <==> f.Keys <= t.Keys
  {
    var pairs, removed := RenamePairs(f, t), RemovedNames(f, t);
    RenamesBreak(pairs);
    RemovalsBreak(removed, Firsts(pairs));
    if f.Keys <= t.Keys {
      assert forall n :: n !in removed;
      assert removed == [];
    } else {
      var n :| n in f && n !in t;
      assert n in removed;
    }
  }

  lemma SharedMeans(f: Props, t: Props)
    ensures NoBreaking(SharedChanges(SortedList(f.Keys), f, t)) <==>
      forall n :: n in f && n in t ==> PropKept(f[n], t[n])
  {
    SharedBreak(SortedList(f.Keys), f, t);
    forall n | n in f && n in t ensures NoBreaking(SharedChange(n, f, t)) <==> PropKept(f[n], t[n]) {
      PropBreaks(n, f[n], t[n]);
    }
  }

  /** Exactly when Diff reports nothing breaking. */
  lemma NonBreakingMeans(from: EventDef, to: EventDef)
    ensures NoBreaking(Changes(from, to)) <==>
      && EventKept(from, to)
      && from.properties.Keys <= to.properties.Keys
      && (forall n :: n in to.properties && n !in from.properties ==> !to.properties[n].required)
      && (forall n :: n in from.properties && n in to.properties ==> PropKept(from.properties[n], to.properties[n]))
  {
    var f, t := from.properties, to.properties;
    ConcatBreaks(from, to);
    EventBreaks(from, to);
    NothingRemoved(f, t);
    SharedMeans(f, t);
    RenamesBreak(RenamePairs(f, t));
    AdditionsBreak(AddedNames(f, t), Seconds(RenamePairs(f, t)), t);
    assert forall n :: n in AddedNames(f, t) <==> n in t && n !in f;
  }

  lemma ConcatBreaks(from: EventDef, to: EventDef)
    ensures var f, t := from.properties, to.properties; var pairs := RenamePairs(f, t);
      NoBreaking(Changes(from, to)) <==>
        && NoBreaking(EventChanges(from, to))
        && NoBreaking(RenameChanges(pairs))
        && NoBreaking(RemovedChanges(RemovedNames(f, t), Firsts(pairs)))
        && NoBreaking(AddedChanges(AddedNames(f, t), Seconds(pairs), t))
        && NoBreaking(SharedChanges(SortedList(f.Keys), f, t))
  {
    var f, t := from.properties, to.properties;
    var pairs := RenamePairs(f, t);
    var e, r := EventChanges(from, to), RenameChanges(pairs);
    var rm := RemovedChanges(RemovedNames(f, t), Firsts(pairs));
    var ad := AddedChanges(AddedNames(f, t), Seconds(pairs), t);
    var sh := SharedChanges(SortedList(f.Keys), f, t);
    Both(e, r);
    Both(e + r, rm);
    Both(e + r + rm, ad);
    Both(e + r + rm + ad, sh);
  }

  lemma Both(a: seq<Change>, b: seq<Change>)
    ensures NoBreaking(a + b) <==> NoBreaking(a) && NoBreaking(b)
  {
    assert forall c :: c in a + b <==> c in a || c in b;
  }

  // ------------------------------------------------------------- compatibility

  // A non-breaking diff leaves four ways in which a value the old definition of a
  // property allows is shut out by the new one.

  /** A first enumeration shuts out a value the property used to allow. */
  ghost predicate FirstEnumNarrows(re: Regex, p: PropertyDef, q: PropertyDef) {
    && p.enumValues == [] && q.enumValues != []
    && exists v :: AllowsValue(re, p, v) && !(v.JString? && v.s in q.enumValues)
  }

  /** Making a property optional hides that it lost an enum value still in use. */
  ghost predicate OptionalHidesLoss(re: Regex, p: PropertyDef, q: PropertyDef) {
    && p.required && !q.required && q.enumValues != []
    && exists e :: e in p.enumValues && e !in q.enumValues && AllowsValue(re, p, JString(e))
  }

  predicate InBounds(p: PropertyDef, n: real) {
    (p.minimum.Some? ==> p.minimum.value <= n) && (p.maximum.Some? ==> n <= p.maximum.value)
  }

  /** A changed bound, which Diff never compares, shuts out a number. */
  ghost predicate BoundsNarrow(re: Regex, p: PropertyDef, q: PropertyDef) {
    exists n :: AllowsValue(re, p, JNumber(n)) && !InBounds(q, n)
  }

  /** A changed pattern, which Diff never compares either, shuts out a string. */
  ghost predicate PatternNarrows(re: Regex, p: PropertyDef, q: PropertyDef) {
    q.pattern != "" && exists s :: AllowsValue(re, p, JString(s)) && !re.matches(q.pattern, s)
  }

  ghost predicate Narrows(re: Regex, p: PropertyDef, q: PropertyDef) {
    FirstEnumNarrows(re, p, q) || OptionalHidesLoss(re, p, q) || BoundsNarrow(re, p, q) || PatternNarrows(re, p, q)
  }

  /** Some shared property shuts out a value it used to allow. */
  ghost predicate SomeNarrows(re: Regex, from: Props, to: Props) {
    exists n :: n in from && n in to && Narrows(re, from[n], to[n])
  }

  /** Payloads with the keys `from` declares that it accepts are accepted by `to`. */
  ghost predicate Compatible(re: Regex, from: Props, to: Props) {
    forall payload: Payload :: payload.Keys <= from.Keys && Accepts(re, from, payload) ==> Accepts(re, to, payload)
  }

  /** The same for payloads with any keys. */
  ghost predicate FullyCompatible(re: Regex, from: Props, to: Props) {
    forall payload: Payload :: Accepts(re, from, payload) ==> Accepts(re, to, payload)
  }

  lemma ValueSurvives(re: Regex, p: PropertyDef, q: PropertyDef, v: Json)
    requires PropKept(p, q) && !Narrows(re, p, q) && AllowsValue(re, p, v)
    ensures AllowsValue(re, q, v)
  {
    if v.JString? {
      assert v == JString(v.s);
      assert v.s in p.enumValues && v.s !in q.enumValues ==> v.s in Without(p.enumValues, q.enumValues);
    } else if v.JNumber? {
      assert v == JNumber(v.n);
    }
  }

  lemma ValueIsLost(re: Regex, p: PropertyDef, q: PropertyDef) returns (v: Json)
    requires Narrows(re, p, q)
    ensures AllowsValue(re, p, v) && !AllowsValue(re, q, v)
  {
    if FirstEnumNarrows(re, p, q) {
      v :| AllowsValue(re, p, v) && !(v.JString? && v.s in q.enumValues);
    } else if OptionalHidesLoss(re, p, q) {
      var e :| e in p.enumValues && e !in q.enumValues && AllowsValue(re, p, JString(e));
      v := JString(e);
    } else if BoundsNarrow(re, p, q) {
      var n :| AllowsValue(re, p, JNumber(n)) && !InBounds(q, n);
      v := JNumber(n);
    } else {
      var s :| AllowsValue(re, p, JString(s)) && !re.matches(q.pattern, s);
      v := JString(s);
    }
  }

  /** With the overlooked narrowings ruled out, a non-breaking diff keeps every old
      payload valid. */
  lemma NonBreakingIsCompatible(re: Regex, from: EventDef, to: EventDef)
    requires NoBreaking(Changes(from, to)) && WellFormed(re, to.properties)
    requires !SomeNarrows(re, from.properties, to.properties)
    ensures Compatible(re, from.properties, to.properties)
  {
    NonBreakingMeans(from, to);
    var f, t := from.properties, to.properties;
    forall payload: Payload | payload.Keys <= f.Keys && Accepts(re, f, payload) ensures Accepts(re, t, payload) {
      forall n | n in t && n in payload ensures AllowsValue(re, t[n], payload[n]) {
        assert n in f && !Narrows(re, f[n], t[n]);
        ValueSurvives(re, f[n], t[n], payload[n]);
      }
    }
  }

  /** Some payload over the declared keys is accepted. */
  ghost predicate Satisfiable(re: Regex, props: Props) {
    exists sample: Payload :: sample.Keys <= props.Keys && Accepts(re, props, sample)
  }

  /** And they are the only gaps, with one more in the document as a whole: unless `from`
      accepts nothing anyway, a non-breaking diff is compatible exactly when the new
      document compiles and no shared property narrows. */
  lemma ExactlyTheseGaps(re: Regex, from: EventDef, to: EventDef)
    requires NoBreaking(Changes(from, to))
    ensures Compatible(re, from.properties, to.properties) <==>
      (Satisfiable(re, from.properties) ==>
         WellFormed(re, to.properties) && !SomeNarrows(re, from.properties, to.properties))
  {
    var f, t := from.properties, to.properties;
    if sample: Payload :| sample.Keys <= f.Keys && Accepts(re, f, sample) {
      GapsGivenSample(re, from, to, sample);
    }
  }

  lemma GapsGivenSample(re: Regex, from: EventDef, to: EventDef, sample: Payload)
    requires NoBreaking(Changes(from, to))
    requires sample.Keys <= from.properties.Keys && Accepts(re, from.properties, sample)
    ensures Compatible(re, from.properties, to.properties) <==>
      WellFormed(re, to.properties) && !SomeNarrows(re, from.properties, to.properties)
  {
    var f, t := from.properties, to.properties;
    if !WellFormed(re, t) {
      assert !Accepts(re, t, sample);
    } else if SomeNarrows(re, f, t) {
      var n :| n in f && n in t && Narrows(re, f[n], t[n]);
      var v := ValueIsLost(re, f[n], t[n]);
      Rejected(re, f, t, sample, n, v);
    } else {
      NonBreakingIsCompatible(re, from, to);
    }
  }

  /** For payloads with undeclared keys there is one gap more, the declaring of a key:
      every old payload stays valid exactly when besides that `to` declares nothing that
      `from` does not. */
  lemma ExactlyWithAnyKeys(re: Regex, from: EventDef, to: EventDef)
    requires NoBreaking(Changes(from, to))
    ensures FullyCompatible(re, from.properties, to.properties) <==>
      (Satisfiable(re, from.properties) ==>
         && to.properties.Keys <= from.properties.Keys
         && WellFormed(re, to.properties)
         && !SomeNarrows(re, from.properties, to.properties))
  {
    var f, t := from.properties, to.properties;
    if sample: Payload :| sample.Keys <= f.Keys && Accepts(re, f, sample) {
      AnyKeysGivenSample(re, from, to, sample);
    } else {
      forall payload: Payload ensures !Accepts(re, f, payload) {
        DeclaredPart(re, f, payload);
      }
    }
  }

  lemma AnyKeysGivenSample(re: Regex, from: EventDef, to: EventDef, sample: Payload)
    requires NoBreaking(Changes(from, to))
    requires sample.Keys <= from.properties.Keys && Accepts(re, from.properties, sample)
    ensures FullyCompatible(re, from.properties, to.properties) <==>
      && to.properties.Keys <= from.properties.Keys
      && WellFormed(re, to.properties)
      && !SomeNarrows(re, from.properties, to.properties)
  {
    var f, t := from.properties, to.properties;
    GapsGivenSample(re, from, to, sample);
    if n :| n in t && n !in f {
      DeclaredKeyRejects(re, f, t, sample, n);
    } else if Compatible(re, f, t) {
      NonBreakingMeans(from, to);
      forall payload: Payload | Accepts(re, f, payload) ensures Accepts(re, t, payload) {
        DeclaredPartDecides(re, f, t, payload);
      }
    }
  }

  /** Dropping the undeclared keys keeps a payload accepted. */
  lemma DeclaredPart(re: Regex, f: Props, payload: Payload)
    ensures Accepts(re, f, payload) ==> Satisfiable(re, f)
  {
    if Accepts(re, f, payload) {
      var part := map k | k in payload && k in f :: payload[k];
      assert part.Keys <= f.Keys && Accepts(re, f, part);
    }
  }

  /** No type allows everything, so a key that `to` is the first to declare can reject. */
  lemma DeclaredKeyRejects(re: Regex, f: Props, t: Props, sample: Payload, n: string)
    requires n in t && n !in f && Accepts(re, f, sample)
    ensures !FullyCompatible(re, f, t)
  {
    var payload := sample[n := if t[n].ptype == NullType then JBool(true) else JNull];
    assert Accepts(re, f, payload);
    assert n in payload && !AllowsValue(re, t[n], payload[n]);
    assert !Accepts(re, t, payload);
  }

  lemma DeclaredPartDecides(re: Regex, f: Props, t: Props, payload: Payload)
    requires Compatible(re, f, t) && t.Keys == f.Keys && Accepts(re, f, payload)
    ensures Accepts(re, t, payload)
  {
    var part := map k | k in payload && k in f :: payload[k];
    assert part.Keys <= f.Keys && Accepts(re, f, part);
    assert Accepts(re, t, part);
  }

  lemma Rejected(re: Regex, f: Props, t: Props, sample: Payload, n: string, v: Json)
    requires n in f && n in t && sample.Keys <= f.Keys && Accepts(re, f, sample)
    requires AllowsValue(re, f[n], v) && !AllowsValue(re, t[n], v)
    ensures !Compatible(re, f, t)
  {
    var payload := sample[n := v];
    assert payload.Keys <= f.Keys;
    assert Accepts(re, f, payload);
    assert !Accepts(re, t, payload);
  }

  // Bounds: what a definition allows of the reals or of the integers.

  predicate IsNumeric(t: PropertyType) { t == NumberType || t == IntegerType }

  function Ceiling(x: real): int { -((-x).Floor) }

  /** A bound as it acts on the type: on integers it moves to the next integer within. */
  function Lower(p: PropertyDef): Option<real> {
    if p.ptype == IntegerType && p.minimum.Some? then Some(Ceiling(p.minimum.value) as real) else p.minimum
  }

  function Upper(p: PropertyDef): Option<real> {
    if p.ptype == IntegerType && p.maximum.Some? then Some(p.maximum.value.Floor as real) else p.maximum
  }

  /** The definition allows some number. */
  predicate AllowsNumbers(p: PropertyDef) {
    && IsNumeric(p.ptype) && p.enumValues == []
    && (Lower(p).Some? && Upper(p).Some? ==> Lower(p).value <= Upper(p).value)
  }

  /** Neither bound is new or tighter, as it acts on the type. */
  predicate Widened(p: PropertyDef, q: PropertyDef) {
    && (q.minimum.Some? ==> p.minimum.Some? && Lower(q).value <= Lower(p).value)
    && (q.maximum.Some? ==> p.maximum.Some? && Upper(p).value <= Upper(q).value)
  }

  lemma IntegerBounds(n: int, bound: real)
    ensures bound <= n as real <==> Ceiling(bound) <= n
    ensures n as real <= bound <==> n <= bound.Floor
  {
  }

  /** A number the definition allows lies between the bounds as they act. */
  lemma AllowedNumber(re: Regex, p: PropertyDef, n: real)
    requires AllowsNumbers(p) && (p.ptype == IntegerType ==> n == n.Floor as real)
    ensures AllowsValue(re, p, JNumber(n)) <==> InBounds(p, n)
    ensures InBounds(p, n) <==>
      (Lower(p).Some? ==> Lower(p).value <= n) && (Upper(p).Some? ==> n <= Upper(p).value)
  {
    if p.ptype == IntegerType {
      if p.minimum.Some? { IntegerBounds(n.Floor, p.minimum.value); }
      if p.maximum.Some? { IntegerBounds(n.Floor, p.maximum.value); }
    }
  }

  /** Some number the definition allows. */
  function Witness(p: PropertyDef): real {
    if Lower(p).Some? then Lower(p).value else if Upper(p).Some? then Upper(p).value else 0.0
  }

  lemma WitnessIsAllowed(re: Regex, p: PropertyDef, n: real)
    requires AllowsNumbers(p)
    requires n == Witness(p) || (Upper(p).Some? && n == Upper(p).value)
      || (Lower(p).None? && n <= Witness(p) && n == n.Floor as real)
      || (Upper(p).None? && Witness(p) <= n && n == n.Floor as real)
    ensures AllowsValue(re, p, JNumber(n))
  {
    AllowedNumber(re, p, n);
  }

  /** A number property loses a value to changed bounds exactly when it allows any and
      a bound, as it acts on the type, is new or tighter. */
  lemma BoundsNarrowExactlyWhen(re: Regex, p: PropertyDef, q: PropertyDef)
    requires p.ptype == q.ptype
    ensures BoundsNarrow(re, p, q) <==> AllowsNumbers(p) && !Widened(p, q)
  {
    if AllowsNumbers(p) && !Widened(p, q) {
      TightBoundRejects(re, p, q);
    } else if AllowsNumbers(p) {
      forall n | AllowsValue(re, p, JNumber(n)) ensures InBounds(q, n) {
        AllowedNumber(re, p, n);
        AllowedNumber(re, q.(enumValues := [], minimum := q.minimum, maximum := None), n);
        AllowedNumber(re, q.(enumValues := [], minimum := None, maximum := q.maximum), n);
      }
    } else {
      NothingAllowed(re, p);
    }
  }

  lemma NothingAllowed(re: Regex, p: PropertyDef)
    requires !AllowsNumbers(p)
    ensures forall n :: !AllowsValue(re, p, JNumber(n))
  {
    forall n ensures !AllowsValue(re, p, JNumber(n)) {
      if p.ptype == IntegerType && p.minimum.Some? && p.maximum.Some? {
        IntegerBounds(n.Floor, p.minimum.value);
        IntegerBounds(n.Floor, p.maximum.value);
      }
    }
  }

  lemma TightBoundRejects(re: Regex, p: PropertyDef, q: PropertyDef)
    requires p.ptype == q.ptype && AllowsNumbers(p) && !Widened(p, q)
    ensures BoundsNarrow(re, p, q)
  {
    var n: real;
    if q.minimum.Some? && !(p.minimum.Some? && Lower(q).value <= Lower(p).value) {
      if Lower(p).Some? {
        n := Lower(p).value;
      } else {
        n := if Witness(p) < Lower(q).value then Witness(p).Floor as real else (Lower(q).value.Floor - 1) as real;
      }
      WitnessIsAllowed(re, p, n);
      AllowedNumber(re, q.(enumValues := [], maximum := None), n);
    } else {
      if Upper(p).Some? {
        n := Upper(p).value;
      } else {
        n := if Upper(q).value < Witness(p) then Ceiling(Witness(p)) as real else (Upper(q).value.Floor + 1) as real;
      }
      WitnessIsAllowed(re, p, n);
      AllowedNumber(re, q.(enumValues := [], minimum := None), n);
    }
    assert !InBounds(q, n);
  }

  /** A string without a pattern, a number with one between its bounds, or another
      type, with an enumeration only on strings. */
  predicate Plain(p: PropertyDef) {
    && !p.ptype.UnknownType?
    && (p.ptype == StringType ==> p.pattern == "")
    && (p.enumValues != [] ==> p.ptype == StringType)
    && (IsNumeric(p.ptype) ==> AllowsNumbers(p))
  }

  /** The two gaps as the definitions show them. */
  predicate GainsFirstEnum(p: PropertyDef, q: PropertyDef) {
    p.enumValues == [] && q.enumValues != []
  }

  predicate LosesValueAsOptional(p: PropertyDef, q: PropertyDef) {
    p.required && !q.required && q.enumValues != [] && exists e :: e in p.enumValues && e !in q.enumValues
  }

  function SomeValue(p: PropertyDef): Json {
    match p.ptype
    case BooleanType => JBool(true)
    case ObjectType => JObject(map[])
    case ArrayType => JArray([])
    case NullType => JNull
    case StringType => JString(if p.enumValues == [] then "" else p.enumValues[0])
    case _ => JNumber(Witness(p))
  }

  lemma SomeValueIsAllowed(re: Regex, p: PropertyDef)
    requires Plain(p)
    ensures AllowsValue(re, p, SomeValue(p))
  {
    if IsNumeric(p.ptype) {
      WitnessIsAllowed(re, p, Witness(p));
    }
  }

  lemma FirstEnumOnPlain(re: Regex, p: PropertyDef, q: PropertyDef)
    requires Plain(p)
    ensures FirstEnumNarrows(re, p, q) <==> GainsFirstEnum(p, q)
  {
    if GainsFirstEnum(p, q) {
      if p.ptype == StringType {
        var s := LongerThanAll(q.enumValues);
        assert AllowsValue(re, p, JString(s)) && s !in q.enumValues;
      } else {
        SomeValueIsAllowed(re, p);
      }
    }
  }

  lemma LossOnPlain(re: Regex, p: PropertyDef, q: PropertyDef)
    requires Plain(p)
    ensures OptionalHidesLoss(re, p, q) <==> LosesValueAsOptional(p, q)
  {
    if LosesValueAsOptional(p, q) {
      var e :| e in p.enumValues && e !in q.enumValues;
      assert AllowsValue(re, p, JString(e));
    }
  }

  /** What of the four gaps shows in the definitions alone. */
  predicate ShowsGap(p: PropertyDef, q: PropertyDef) {
    GainsFirstEnum(p, q) || LosesValueAsOptional(p, q) || (IsNumeric(p.ptype) && !Widened(p, q))
  }

  lemma PlainIsSatisfiable(re: Regex, props: Props)
    requires WellFormed(re, props) && forall n :: n in props ==> Plain(props[n])
    ensures Satisfiable(re, props)
  {
    var sample: Payload := map n | n in props :: SomeValue(props[n]);
    forall n | n in props ensures AllowsValue(re, props[n], sample[n]) {
      SomeValueIsAllowed(re, props[n]);
    }
    assert sample.Keys <= props.Keys && Accepts(re, props, sample);
  }

  /** For plain properties the exact condition can be read off the definitions. */
  lemma ExactlyThesePlainGaps(re: Regex, from: EventDef, to: EventDef)
    requires NoBreaking(Changes(from, to)) && WellFormed(re, from.properties)
    requires forall n :: n in from.properties ==> Plain(from.properties[n])
    requires forall n :: n in from.properties && n in to.properties && from.properties[n].ptype == StringType ==>
      to.properties[n].pattern == ""
    ensures Compatible(re, from.properties, to.properties) <==>
      && WellFormed(re, to.properties)
      && forall n :: n in from.properties && n in to.properties ==> !ShowsGap(from.properties[n], to.properties[n])
  {
    ExactlyTheseGaps(re, from, to);
    PlainIsSatisfiable(re, from.properties);
    NonBreakingMeans(from, to);
    var f, t := from.properties, to.properties;
    forall n | n in f && n in t ensures Narrows(re, f[n], t[n]) <==> ShowsGap(f[n], t[n]) {
      FirstEnumOnPlain(re, f[n], t[n]);
      LossOnPlain(re, f[n], t[n]);
      BoundsNarrowExactlyWhen(re, f[n], t[n]);
    }
  }

  lemma KeptIsNotNarrowed(re: Regex, p: PropertyDef, q: PropertyDef)
    requires p.ptype == q.ptype && p.pattern == q.pattern
    requires !GainsFirstEnum(p, q) && !LosesValueAsOptional(p, q) && (IsNumeric(p.ptype) ==> Widened(p, q))
    ensures !Narrows(re, p, q)
  {
    BoundsNarrowExactlyWhen(re, p, q);
  }

  /** In terms of the documents built from both versions, with conditions a publisher
      can check: patterns kept, no bound tightened, no first enumeration, no value lost
      while becoming optional, and a new document that compiles. */
  lemma BuiltSchemasAreCompatible(
    re: Regex, from: EventDef, to: EventDef, before: Schema, after: Schema, payload: Payload)
    requires Describes(before, from.properties) && Describes(after, to.properties)
    requires NoBreaking(Changes(from, to)) && SchemaCompiles(re, after)
    requires forall n :: n in from.properties && n in to.properties ==>
      from.properties[n].pattern == to.properties[n].pattern && !ShowsGap(from.properties[n], to.properties[n])
    requires payload.Keys <= from.properties.Keys && Validates(re, before, payload)
    ensures Validates(re, after, payload)
  {
    ValidationIsAcceptance(re, before, from.properties, payload);
    ValidationIsAcceptance(re, after, to.properties, payload);
    var f, t := from.properties, to.properties;
    forall n | n in t ensures !t[n].ptype.UnknownType? && (t[n].pattern != "" ==> re.compiles(t[n].pattern)) {
      assert n in after.properties;
    }
    NonBreakingMeans(from, to);
    forall n | n in f && n in t ensures !Narrows(re, f[n], t[n]) {
      KeptIsNotNarrowed(re, f[n], t[n]);
    }
    NonBreakingIsCompatible(re, from, to);
  }

  /** The version gate inherits the promise: an accepted version with the same major
      number means no breaking change was reported. */
  lemma SameMajorIsNonBreaking(from: EventDef, to: EventDef)
    requires VersionBump.Accepted(from.version, to.version, Changes(from, to))
    requires SchemaVersions.Parse(from.version).value.major == SchemaVersions.Parse(to.version).value.major
    ensures NoBreaking(Changes(from, to))
  {
    forall c | c in Changes(from, to) ensures !c.breaking {
      assert VersionBump.BumpLevel(c) <= VersionBump.Level(Changes(from, to));
    }
  }

  // ------------------------------------------------------------- counterexamples

  const BASE_PROP := PropertyDef(StringType, false, "", [], "", None, None)

  function OneProp(p: PropertyDef): EventDef {
    EventDef("signup", "", "", "1-0-0", Active, "auth", [], "", "track", "Signup",
             map["plan" := p], [], map[], [], None, "")
  }

  lemma OnePropNonBreaking(p: PropertyDef, q: PropertyDef)
    requires PropKept(p, q)
    ensures NoBreaking(Changes(OneProp(p), OneProp(q)))
  {
    NonBreakingMeans(OneProp(p), OneProp(q));
  }

  lemma OnePropPayload(re: Regex, p: PropertyDef, v: Json)
    requires p.pattern == "" && !p.ptype.UnknownType?
    ensures Accepts(re, OneProp(p).properties, map["plan" := v]) <==> AllowsValue(re, p, v)
  {
    var payload := map["plan" := v];
    assert "plan" in payload && "plan" in OneProp(p).properties;
  }

  lemma NarrowingExample(re: Regex, p: PropertyDef, q: PropertyDef, v: Json)
    requires PropKept(p, q) && p.pattern == "" == q.pattern && !p.ptype.UnknownType? && !q.ptype.UnknownType?
    requires AllowsValue(re, p, v) && !AllowsValue(re, q, v)
    ensures NoBreaking(Changes(OneProp(p), OneProp(q)))
    ensures Accepts(re, OneProp(p).properties, map["plan" := v])
    ensures !Accepts(re, OneProp(q).properties, map["plan" := v])
  {
    OnePropNonBreaking(p, q);
    OnePropPayload(re, p, v);
    OnePropPayload(re, q, v);
  }

  /** A first enumeration is reported as non-breaking and rejects an old payload. */
  lemma FirstEnumCounterexample(re: Regex)
    ensures var p, q := BASE_PROP, BASE_PROP.(enumValues := ["pro"]); var payload := map["plan" := JString("free")];
      && NoBreaking(Changes(OneProp(p), OneProp(q)))
      && Accepts(re, OneProp(p).properties, payload) && !Accepts(re, OneProp(q).properties, payload)
  {
    var p, q := BASE_PROP, BASE_PROP.(enumValues := ["pro"]);
    NarrowingExample(re, p, q, JString("free"));
  }

  /** Making a property optional returns before its enumeration is looked at. */
  lemma OptionalHidesLossCounterexample(re: Regex)
    ensures var p, q := BASE_PROP.(required := true, enumValues := ["free", "pro"]), BASE_PROP.(enumValues := ["pro"]);
      var payload := map["plan" := JString("free")];
      && NoBreaking(Changes(OneProp(p), OneProp(q)))
      && Accepts(re, OneProp(p).properties, payload) && !Accepts(re, OneProp(q).properties, payload)
  {
    var p, q := BASE_PROP.(required := true, enumValues := ["free", "pro"]), BASE_PROP.(enumValues := ["pro"]);
    NarrowingExample(re, p, q, JString("free"));
  }

  /** No change of pattern, minimum or maximum is ever reported. */
  lemma BoundsAreNotCompared(n: string, p: PropertyDef, pattern: string, minimum: Option<real>, maximum: Option<real>)
    ensures PropChanges(n, p, p.(pattern := pattern, minimum := minimum, maximum := maximum)) == []
  {
    HasMember(Without(p.enumValues, p.enumValues));
  }

  lemma HasMember(s: seq<string>)
    ensures s != [] ==> exists e :: e in s
  {
    if s != [] {
      assert s[0] in s;
    }
  }

  /** So a tightened bound rejects an old payload without a word. */
  lemma BoundCounterexample(re: Regex)
    ensures var p := BASE_PROP.(ptype := NumberType); var q := p.(minimum := Some(10.0));
      var payload := map["plan" := JNumber(1.0)];
      && NoBreaking(Changes(OneProp(p), OneProp(q)))
      && Accepts(re, OneProp(p).properties, payload) && !Accepts(re, OneProp(q).properties, payload)
  {
    var p := BASE_PROP.(ptype := NumberType);
    var q := p.(minimum := Some(10.0));
    NarrowingExample(re, p, q, JNumber(1.0));
  }

  /** A key `from` does not declare passes unchecked until `to` declares it. */
  lemma {:induction false} UndeclaredKeyCounterexample(re: Regex)
    ensures var from := OneProp(BASE_PROP).(properties := map[]); var to := OneProp(BASE_PROP);
      var payload := map["plan" := JNumber(1.0)];
      && NoBreaking(Changes(from, to))
      && Accepts(re, from.properties, payload) && !Accepts(re, to.properties, payload)
  {
    NonBreakingMeans(OneProp(BASE_PROP).(properties := map[]), OneProp(BASE_PROP));
    OnePropPayload(re, BASE_PROP, JNumber(1.0));
  }

  /** A property the document compiler refuses. */
  predicate Uncompilable(re: Regex, q: PropertyDef) {
    q.ptype.UnknownType? || (q.pattern != "" && !re.compiles(q.pattern))
  }

  lemma KeptAsIs(re: Regex, p: PropertyDef)
    ensures PropKept(p, p) && !Narrows(re, p, p)
  {
    HasMember(Without(p.enumValues, p.enumValues));
  }

  /** Whatever the event, an added optional property of unknown type, or with a pattern
      that does not compile, is reported as non-breaking, narrows no shared property,
      and rejects every payload there is. */
  lemma UncompilableCounterexample(re: Regex, from: EventDef, n: string, q: PropertyDef)
    requires n !in from.properties && !q.required && Uncompilable(re, q)
    ensures var to := from.(properties := from.properties[n := q]);
      && NoBreaking(Changes(from, to))
      && !SomeNarrows(re, from.properties, to.properties)
      && forall payload: Payload :: !Accepts(re, to.properties, payload)
  {
    var f, t := from.properties, from.properties[n := q];
    forall k | k in f ensures t[k] == f[k] && PropKept(f[k], t[k]) && !Narrows(re, f[k], t[k]) {
      KeptAsIs(re, f[k]);
    }
    NonBreakingMeans(from, from.(properties := t));
    assert n in t && !WellFormed(re, t);
  }
}
