/** Differences between two versions of an event specification. */
module SpecDiff {
  import opened Common
  import opened SpecModel
  import opened Names

  function When(condition: bool, c: Change): seq<Change> {
    if condition then [c] else []
  }

  function Lookup(m: map<string, string>, k: string): string {
    if k in m then m[k] else ""
  }

  /** A missing property reads as the empty string. */
  predicate MappingEqual(p: map<string, string>, q: map<string, string>) {
    |p| == |q| && forall pk :: pk in p ==> Lookup(q, pk) == p[pk]
  }

  /** Overrides agree name by name. */
  predicate OverridesEqual(a: map<string, ProviderOverride>, b: map<string, ProviderOverride>) {
    && |a| == |b|
    && forall k :: k in a ==>
         && k in b
         && a[k].eventName == b[k].eventName
         && MappingEqual(a[k].propertyMap, b[k].propertyMap)
  }

  lemma SameKeys<V>(a: map<string, V>, b: map<string, V>)
    requires |a| == |b| && a.Keys <= b.Keys
    ensures a.Keys == b.Keys
  {
    assert |b.Keys - a.Keys| == |b.Keys| - |a.Keys|;
  }

  /** Some property is mapped to the empty string. */
  ghost predicate HasEmptyMapping(a: map<string, ProviderOverride>) {
    exists k, pk :: k in a && pk in a[k].propertyMap && a[k].propertyMap[pk] == ""
  }

  lemma EqualWithoutEmptyMapping(a: map<string, ProviderOverride>, b: map<string, ProviderOverride>)
    requires !HasEmptyMapping(a)
    ensures OverridesEqual(a, b) <==> a == b
  {
    if OverridesEqual(a, b) {
      SameKeys(a, b);
      forall k | k in a ensures a[k] == b[k] {
        var p, q := a[k].propertyMap, b[k].propertyMap;
        assert forall pk :: pk in p ==> Lookup(q, pk) == p[pk] && pk in q;
        SameKeys(p, q);
        assert p == q;
      }
    }
  }

  lemma ExchangeEmpty(p: map<string, string>, pk: string) returns (q: map<string, string>)
    requires pk in p && p[pk] == ""
    ensures p != q && MappingEqual(p, q) && !MappingEqual(q, p)
  {
    var extra := LongerThanAll(SortedList(p.Keys));
    assert extra !in p;
    var rest := map x | x in p && x != pk :: p[x];
    q := rest[extra := "x"];
    assert rest.Keys == p.Keys - {pk} && q.Keys == rest.Keys + {extra};
    assert |p.Keys| == |p| && |q.Keys| == |q|;
    assert extra in q && Lookup(p, extra) == "";
  }

  /** A property mapped to the empty string can be exchanged for any other. */
  lemma EmptyMappingIsOverlooked(a: map<string, ProviderOverride>, k: string, pk: string)
    returns (b: map<string, ProviderOverride>)
    requires k in a && pk in a[k].propertyMap && a[k].propertyMap[pk] == ""
    ensures a != b && OverridesEqual(a, b) && !OverridesEqual(b, a)
  {
    var q := ExchangeEmpty(a[k].propertyMap, pk);
    b := a[k := ProviderOverride(a[k].eventName, q)];
    SameSize(a, b);
    assert k in b && b[k].propertyMap == q;
  }

  lemma SameSize<V>(a: map<string, V>, b: map<string, V>)
    requires a.Keys == b.Keys
    ensures |a| == |b|
  {
    assert |a| == |a.Keys| && |b| == |b.Keys|;
  }

  /** Provider overrides compare equal exactly when they are equal, for all others to
      compare with, if and only if no property is mapped to the empty string. */
  lemma OverridesCompareExactly(a: map<string, ProviderOverride>)
    ensures (forall b :: OverridesEqual(a, b) <==> a == b) <==> !HasEmptyMapping(a)
  {
    if HasEmptyMapping(a) {
      var k, pk :| k in a && pk in a[k].propertyMap && a[k].propertyMap[pk] == "";
      var b := EmptyMappingIsOverlooked(a, k, pk);
    } else {
      forall b ensures OverridesEqual(a, b) <==> a == b {
        EqualWithoutEmptyMapping(a, b);
      }
    }
  }

  predicate Renamed(from: EventDef, to: EventDef) {
    from.name != to.name || from.eventName != to.eventName
  }

  function StatusChange(from: EventDef, to: EventDef): Change {
    Change(StatusChanged, "status", to.status == Deleted, StatusName(from.status), StatusName(to.status))
  }

  /** A changed list is shown joined. */
  function ListChange(kind: ChangeKind, property: string, from: seq<string>, to: seq<string>): Change {
    Change(kind, property, false, Join(from, ", "), Join(to, ", "))
  }

  function PriorityChange(from: EventDef, to: EventDef): Change {
    Change(PropertyPriorityChanged, "property_priority", false, from.propertyPriority, to.propertyPriority)
  }

  predicate MetadataDiffers(from: EventDef, to: EventDef) {
    || from.description != to.description
    || (!Renamed(from, to) && from.displayName != to.displayName)
    || from.owner != to.owner
    || from.tags != to.tags
  }

  function IdentityChanges(from: EventDef, to: EventDef): seq<Change> {
    When(Renamed(from, to), Change(RenameEvent, "event_name", true, from.eventName, to.eventName))
    + When(from.eventType != to.eventType, Change(EventTypeChanged, "type", true, from.eventType, to.eventType))
    + When(from.status != to.status, StatusChange(from, to))
    + When(from.sampling != to.sampling, Change(SamplingModified, "sampling", false, "", ""))
    + When(from.contextProperties != to.contextProperties,
           ListChange(ContextPropsModified, "context_properties", from.contextProperties, to.contextProperties))
  }

  function RoutingChanges(from: EventDef, to: EventDef): seq<Change> {
    When(from.destinations != to.destinations,
         ListChange(DestinationsModified, "destinations", from.destinations, to.destinations))
    + When(from.propertyPriority != to.propertyPriority, PriorityChange(from, to))
    + When(!OverridesEqual(from.providerOverrides, to.providerOverrides),
           Change(ProviderOverridesModified, "provider_overrides", false, "", ""))
    + When(MetadataDiffers(from, to), Change(MetadataOnly, "metadata", false, "", ""))
  }

  /** Changes to the event itself, in reporting order. Only a transition to deleted
      is a breaking change of status. */
  function EventChanges(from: EventDef, to: EventDef): seq<Change> {
    IdentityChanges(from, to) + RoutingChanges(from, to)
  }

  /** Changes to a property both versions have: at most one is reported, the most
      impactful dimension first. */
  function PropChanges(name: string, from: PropertyDef, to: PropertyDef): seq<Change> {
    var lost, gained := Without(from.enumValues, to.enumValues), Without(to.enumValues, from.enumValues);
    if from.ptype != to.ptype then [Change(TypeChanged, name, true, TypeName(from.ptype), TypeName(to.ptype))]
    else if !from.required && to.required then [Change(MakeRequired, name, true, "", "")]
    else if from.required && !to.required then [Change(MakeOptional, name, false, "", "")]
    else if lost != [] then [Change(RemoveEnumValue, name, true, Join(lost, ","), "")]
    else if gained != [] then [Change(AddEnumValue, name, false, "", Join(gained, ","))]
    else When(from.description != to.description, Change(DescriptionOnly, name, false, "", ""))
  }

  type Props = map<string, PropertyDef>

  /** The first name of `added` not yet matched whose property has type `t`. */
  function FirstMatch(added: seq<string>, used: set<string>, t: PropertyType, toProps: Props): (found: Option<string>)
    requires forall n :: n in added ==> n in toProps
  {
    if added == [] then None
    else if added[0] !in used && t == toProps[added[0]].ptype then Some(added[0])
    else FirstMatch(added[1..], used, t, toProps)
  }

  /** Greedy pairing of removed with added names of the same type. */
  function Renames(
    removed: seq<string>, added: seq<string>, used: set<string>, fromProps: Props, toProps: Props
  ): seq<(string, string)>
    requires forall n :: n in removed ==> n in fromProps
    requires forall n :: n in added ==> n in toProps
  {
    if removed == [] then []
    else
      match FirstMatch(added, used, fromProps[removed[0]].ptype, toProps)
      case None => Renames(removed[1..], added, used, fromProps, toProps)
      case Some(a) => [(removed[0], a)] + Renames(removed[1..], added, used + {a}, fromProps, toProps)
  }

  function RenameChange(pair: (string, string)): Change {
    Change(RenameProp, pair.0, true, pair.0, pair.1)
  }

  function RenameChanges(pairs: seq<(string, string)>): seq<Change> {
    if pairs == [] then [] else RenameChanges(pairs[..|pairs| - 1]) + [RenameChange(pairs[|pairs| - 1])]
  }

  function RemovedChange(name: string, matched: set<string>): seq<Change> {
    When(name !in matched, Change(RemoveProp, name, true, "", ""))
  }

  function RemovedChanges(removed: seq<string>, matched: set<string>): seq<Change> {
    if removed == [] then []
    else RemovedChanges(removed[..|removed| - 1], matched) + RemovedChange(removed[|removed| - 1], matched)
  }

  function AddedChange(name: string, matched: set<string>, toProps: Props): seq<Change>
    requires name in toProps
  {
    When(name !in matched,
         Change(if toProps[name].required then AddRequiredProp else AddOptionalProp, name,
                toProps[name].required, "", ""))
  }

  function AddedChanges(added: seq<string>, matched: set<string>, toProps: Props): seq<Change>
    requires forall n :: n in added ==> n in toProps
  {
    if added == [] then []
    else AddedChanges(added[..|added| - 1], matched, toProps) + AddedChange(added[|added| - 1], matched, toProps)
  }

  function SharedChange(name: string, fromProps: Props, toProps: Props): seq<Change>
    requires name in fromProps
  {
    if name in toProps then PropChanges(name, fromProps[name], toProps[name]) else []
  }

  function SharedChanges(names: seq<string>, fromProps: Props, toProps: Props): seq<Change>
    requires forall n :: n in names ==> n in fromProps
  {
    if names == [] then []
    else SharedChanges(names[..|names| - 1], fromProps, toProps) + SharedChange(names[|names| - 1], fromProps, toProps)
  }

  function Firsts(pairs: seq<(string, string)>): set<string> { set p | p in pairs :: p.0 }

  function Seconds(pairs: seq<(string, string)>): set<string> { set p | p in pairs :: p.1 }

  ghost function RemovedNames(from: Props, to: Props): seq<string> {
    Without(SortedList(from.Keys), SortedList(to.Keys))
  }

  ghost function AddedNames(from: Props, to: Props): seq<string> {
    Without(SortedList(to.Keys), SortedList(from.Keys))
  }

  ghost function RenamePairs(from: Props, to: Props): seq<(string, string)> {
    Renames(RemovedNames(from, to), AddedNames(from, to), {}, from, to)
  }

  /** The changes Diff reports. */
  ghost function Changes(from: EventDef, to: EventDef): seq<Change> {
    var f, t := from.properties, to.properties;
    var pairs := RenamePairs(f, t);
    EventChanges(from, to)
    + RenameChanges(pairs)
    + RemovedChanges(RemovedNames(f, t), Firsts(pairs))
    + AddedChanges(AddedNames(f, t), Seconds(pairs), t)
    + SharedChanges(SortedList(f.Keys), f, t)
  }

  lemma PairsSnoc(pairs: seq<(string, string)>, p: (string, string))
    ensures RenameChanges(pairs + [p]) == RenameChanges(pairs) + [RenameChange(p)]
    ensures Firsts(pairs + [p]) == Firsts(pairs) + {p.0}
    ensures Seconds(pairs + [p]) == Seconds(pairs) + {p.1}
  {
    assert (pairs + [p])[..|pairs|] == pairs;
    assert p in pairs + [p] && forall q :: q in pairs + [p] <==> q in pairs || q == p;
  }

  lemma RenamesUnfold(
    removed: seq<string>, i: nat, added: seq<string>, used: set<string>, fromProps: Props, toProps: Props)
    requires i < |removed|
    requires (forall n :: n in removed ==> n in fromProps) && (forall n :: n in added ==> n in toProps)
    ensures Renames(removed[i..], added, used, fromProps, toProps) ==
      match FirstMatch(added, used, fromProps[removed[i]].ptype, toProps)
      case None => Renames(removed[i + 1..], added, used, fromProps, toProps)
      case Some(a) => [(removed[i], a)] + Renames(removed[i + 1..], added, used + {a}, fromProps, toProps)
  {
    assert removed[i..][1..] == removed[i + 1..];
  }

  /** The inner loop of rename detection. */
  method FindMatch(
    added: seq<string>, used: set<string>, t: PropertyType, toProps: Props) returns (found: Option<string>)
    requires forall n :: n in added ==> n in toProps
    ensures found == FirstMatch(added, used, t, toProps)
  {
    for i := 0 to |added|
      invariant FirstMatch(added, used, t, toProps) == FirstMatch(added[i..], used, t, toProps)
    {
      assert added[i..][1..] == added[i + 1..];
      if added[i] !in used && t == toProps[added[i]].ptype {
        return Some(added[i]);
      }
    }
    return None;
  }

  /** The outer loop: every match is recorded on both sides. */
  method DetectRenames(removed: seq<string>, added: seq<string>, fromProps: Props, toProps: Props)
    returns (changes: seq<Change>, renamedFrom: set<string>, renamedTo: set<string>)
    requires forall n :: n in removed ==> n in fromProps
    requires forall n :: n in added ==> n in toProps
    ensures var pairs := Renames(removed, added, {}, fromProps, toProps);
      changes == RenameChanges(pairs) && renamedFrom == Firsts(pairs) && renamedTo == Seconds(pairs)
  {
    changes, renamedFrom, renamedTo := [], {}, {};
    ghost var pairs: seq<(string, string)> := [];
    ghost var all := Renames(removed, added, {}, fromProps, toProps);
    for i := 0 to |removed|
      invariant Recorded(pairs, changes, renamedFrom, renamedTo)
      invariant pairs + Renames(removed[i..], added, renamedTo, fromProps, toProps) == all
    {
      RenamesUnfold(removed, i, added, renamedTo, fromProps, toProps);
      var found := FindMatch(added, renamedTo, fromProps[removed[i]].ptype, toProps);
      if found.Some? {
        RecordedSnoc(pairs, (removed[i], found.value));
        renamedFrom := renamedFrom + {removed[i]};
        renamedTo := renamedTo + {found.value};
        changes := changes + [Change(RenameProp, removed[i], true, removed[i], found.value)];
        pairs := pairs + [(removed[i], found.value)];
      }
    }
    assert pairs == all;
  }

  /** The pairs found so far, in the three places the loop keeps them. */
  ghost predicate Recorded(
    pairs: seq<(string, string)>, changes: seq<Change>, renamedFrom: set<string>, renamedTo: set<string>)
  {
    changes == RenameChanges(pairs) && renamedFrom == Firsts(pairs) && renamedTo == Seconds(pairs)
  }

  lemma {:induction false} RecordedSnoc(pairs: seq<(string, string)>, p: (string, string))
    ensures Recorded(pairs + [p], RenameChanges(pairs) + [Change(RenameProp, p.0, true, p.0, p.1)],
                     Firsts(pairs) + {p.0}, Seconds(pairs) + {p.1})
  {
    PairsSnoc(pairs, p);
  }

  method Diff(from: EventDef, to: EventDef) returns (changes: seq<Change>)
    ensures changes == Changes(from, to)
  {
    var f, t := from.properties, to.properties;
    changes := EventChanges(from, to);
    var fromNames := SortNames(f.Keys);
    var toNames := SortNames(t.Keys);
    var removed := SliceDiff(fromNames, toNames);
    var added := SliceDiff(toNames, fromNames);
    var renames, renamedFrom, renamedTo := DetectRenames(removed, added, f, t);
    changes := changes + renames;
    var more := ReportRemoved(removed, renamedFrom);
    changes := changes + more;
    more := ReportAdded(added, renamedTo, t);
    changes := changes + more;
    more := ReportShared(fromNames, f, t);
    changes := changes + more;
  }

  method ReportRemoved(removed: seq<string>, renamedFrom: set<string>) returns (changes: seq<Change>)
    ensures changes == RemovedChanges(removed, renamedFrom)
  {
    changes := [];
    for i := 0 to |removed|
      invariant changes == RemovedChanges(removed[..i], renamedFrom)
    {
      assert removed[..i + 1][..i] == removed[..i];
      if removed[i] !in renamedFrom {
        changes := changes + [Change(RemoveProp, removed[i], true, "", "")];
      }
    }
    assert removed[..|removed|] == removed;
  }

  method ReportAdded(added: seq<string>, renamedTo: set<string>, toProps: Props) returns (changes: seq<Change>)
    requires forall n :: n in added ==> n in toProps
    ensures changes == AddedChanges(added, renamedTo, toProps)
  {
    changes := [];
    for i := 0 to |added|
      invariant changes == AddedChanges(added[..i], renamedTo, toProps)
    {
      assert added[..i + 1][..i] == added[..i];
      if added[i] !in renamedTo {
        if toProps[added[i]].required {
          changes := changes + [Change(AddRequiredProp, added[i], true, "", "")];
        } else {
          changes := changes + [Change(AddOptionalProp, added[i], false, "", "")];
        }
      }
    }
    assert added[..|added|] == added;
  }

  lemma SharedSnoc(names: seq<string>, i: nat, fromProps: Props, toProps: Props)
    requires i < |names| && forall n :: n in names ==> n in fromProps
    ensures SharedChanges(names[..i + 1], fromProps, toProps)
      == SharedChanges(names[..i], fromProps, toProps) + SharedChange(names[i], fromProps, toProps)
  {
    assert names[..i + 1][..i] == names[..i];
  }

  method ReportShared(fromNames: seq<string>, fromProps: Props, toProps: Props) returns (changes: seq<Change>)
    requires forall n :: n in fromNames ==> n in fromProps
    ensures changes == SharedChanges(fromNames, fromProps, toProps)
  {
    changes := [];
    for i := 0 to |fromNames|
      invariant changes == SharedChanges(fromNames[..i], fromProps, toProps)
    {
      SharedSnoc(fromNames, i, fromProps, toProps);
      var name := fromNames[i];
      if name in toProps {
        changes := changes + PropChanges(name, fromProps[name], toProps[name]);
      }
    }
    assert fromNames[..|fromNames|] == fromNames;
  }
}
