/** What the change list says: which change is reported, with which texts, in which
    order, and what that means for the version. */
module ChangeTheorems {
  import opened Common
  import opened SpecModel
  import opened Names
  import opened SpecDiff
  import RenameTheorems
  import Compatibility
  import VersionBump

  // ------------------------------------------------------------ what is reported

  /** Changes of the event itself. */
  ghost predicate EventReported(from: EventDef, to: EventDef, c: Change) {
    match c.kind
    case RenameEvent =>
      (from.name != to.name || from.eventName != to.eventName)
      && c == Change(RenameEvent, "event_name", true, from.eventName, to.eventName)
    case EventTypeChanged =>
      from.eventType != to.eventType && c == Change(EventTypeChanged, "type", true, from.eventType, to.eventType)
    case StatusChanged =>
      from.status != to.status
      && c == Change(StatusChanged, "status", to.status == Deleted, StatusName(from.status), StatusName(to.status))
    case SamplingModified =>
      from.sampling != to.sampling && c == Change(SamplingModified, "sampling", false, "", "")
    case ContextPropsModified =>
      from.contextProperties != to.contextProperties
      && c == Change(ContextPropsModified, "context_properties", false,
                     Join(from.contextProperties, ", "), Join(to.contextProperties, ", "))
    case DestinationsModified =>
      from.destinations != to.destinations
      && c == Change(DestinationsModified, "destinations", false,
                     Join(from.destinations, ", "), Join(to.destinations, ", "))
    case PropertyPriorityChanged =>
      from.propertyPriority != to.propertyPriority
      && c == Change(PropertyPriorityChanged, "property_priority", false, from.propertyPriority, to.propertyPriority)
    case ProviderOverridesModified =>
      !OverridesEqual(from.providerOverrides, to.providerOverrides)
      && c == Change(ProviderOverridesModified, "provider_overrides", false, "", "")
    case MetadataOnly =>
      (from.description != to.description || from.owner != to.owner || from.tags != to.tags
       || (from.displayName != to.displayName && from.name == to.name && from.eventName == to.eventName))
      && c == Change(MetadataOnly, "metadata", false, "", "")
    case _ => false
  }

  predicate LosesValue(p: PropertyDef, q: PropertyDef) {
    exists e :: e in p.enumValues && e !in q.enumValues
  }

  /** Changes of a property both versions have: the first dimension that differs, of type,
      requirement, lost values, gained values and description. */
  ghost predicate PropReported(p: PropertyDef, q: PropertyDef, c: Change) {
    match c.kind
    case TypeChanged =>
      p.ptype != q.ptype && c == Change(TypeChanged, c.property, true, TypeName(p.ptype), TypeName(q.ptype))
    case MakeRequired =>
      p.ptype == q.ptype && !p.required && q.required && c == Change(MakeRequired, c.property, true, "", "")
    case MakeOptional =>
      p.ptype == q.ptype && p.required && !q.required && c == Change(MakeOptional, c.property, false, "", "")
    case RemoveEnumValue =>
      p.ptype == q.ptype && p.required == q.required && LosesValue(p, q)
      && c == Change(RemoveEnumValue, c.property, true, Join(Without(p.enumValues, q.enumValues), ","), "")
    case AddEnumValue =>
      p.ptype == q.ptype && p.required == q.required && !LosesValue(p, q) && LosesValue(q, p)
      && c == Change(AddEnumValue, c.property, false, "", Join(Without(q.enumValues, p.enumValues), ","))
    case DescriptionOnly =>
      p.ptype == q.ptype && p.required == q.required && !LosesValue(p, q) && !LosesValue(q, p)
      && p.description != q.description && c == Change(DescriptionOnly, c.property, false, "", "")
    case _ => false
  }

  ghost predicate SharedReported(f: Props, t: Props, c: Change) {
    c.property in f && c.property in t && PropReported(f[c.property], t[c.property], c)
  }

  /** The change list has a rename from or to the name. */
  ghost predicate RenamedFrom(changes: seq<Change>, n: string) {
    exists r :: r in changes && r.kind == RenameProp && r.from == n
  }

  ghost predicate RenamedTo(changes: seq<Change>, n: string) {
    exists r :: r in changes && r.kind == RenameProp && r.to == n
  }

  /** Removals and additions: what only one version has and no rename accounts for. */
  ghost predicate SideReported(f: Props, t: Props, changes: seq<Change>, c: Change) {
    match c.kind
    case RemoveProp =>
      c.property in f && c.property !in t && !RenamedFrom(changes, c.property)
      && c == Change(RemoveProp, c.property, true, "", "")
    case AddRequiredProp =>
      c.property in t && c.property !in f && !RenamedTo(changes, c.property) && t[c.property].required
      && c == Change(AddRequiredProp, c.property, true, "", "")
    case AddOptionalProp =>
      c.property in t && c.property !in f && !RenamedTo(changes, c.property) && !t[c.property].required
      && c == Change(AddOptionalProp, c.property, false, "", "")
    case _ => false
  }

  /** A rename joins a removed with an added name of its type, and says so three times. */
  ghost predicate RenameReported(f: Props, t: Props, c: Change) {
    && c.kind == RenameProp && c == Change(RenameProp, c.from, true, c.from, c.to)
    && c.from in f && c.from !in t && c.to in t && c.to !in f && f[c.from].ptype == t[c.to].ptype
  }

  // --------------------------------------------------------------- section by section

  lemma WhenHas(condition: bool, x: Change, c: Change)
    ensures c in When(condition, x) <==> condition && c == x
  {
  }

  lemma IdentityHas(from: EventDef, to: EventDef, c: Change)
    ensures c in IdentityChanges(from, to) <==>
      EventReported(from, to, c)
      && c.kind in {RenameEvent, EventTypeChanged, StatusChanged, SamplingModified, ContextPropsModified}
  {
    WhenHas(Renamed(from, to), Change(RenameEvent, "event_name", true, from.eventName, to.eventName), c);
    WhenHas(from.eventType != to.eventType, Change(EventTypeChanged, "type", true, from.eventType, to.eventType), c);
    WhenHas(from.status != to.status, StatusChange(from, to), c);
    WhenHas(from.sampling != to.sampling, Change(SamplingModified, "sampling", false, "", ""), c);
    WhenHas(from.contextProperties != to.contextProperties,
            ListChange(ContextPropsModified, "context_properties", from.contextProperties, to.contextProperties), c);
  }

  lemma RoutingHas(from: EventDef, to: EventDef, c: Change)
    ensures c in RoutingChanges(from, to) <==>
      EventReported(from, to, c)
      && c.kind in {DestinationsModified, PropertyPriorityChanged, ProviderOverridesModified, MetadataOnly}
  {
    WhenHas(from.destinations != to.destinations,
            ListChange(DestinationsModified, "destinations", from.destinations, to.destinations), c);
    WhenHas(from.propertyPriority != to.propertyPriority, PriorityChange(from, to), c);
    WhenHas(!OverridesEqual(from.providerOverrides, to.providerOverrides),
            Change(ProviderOverridesModified, "provider_overrides", false, "", ""), c);
    WhenHas(MetadataDiffers(from, to), Change(MetadataOnly, "metadata", false, "", ""), c);
  }

  lemma EventHas(from: EventDef, to: EventDef, c: Change)
    ensures c in EventChanges(from, to) <==> EventReported(from, to, c)
  {
    IdentityHas(from, to, c);
    RoutingHas(from, to, c);
  }

  lemma LostValues(p: PropertyDef, q: PropertyDef)
    ensures Without(p.enumValues, q.enumValues) != [] <==> LosesValue(p, q)
  {
    var lost := Without(p.enumValues, q.enumValues);
    Compatibility.HasMember(lost);
    if LosesValue(p, q) {
      var e :| e in p.enumValues && e !in q.enumValues;
      assert e in lost;
    }
  }

  lemma EnumHas(n: string, p: PropertyDef, q: PropertyDef, c: Change)
    requires p.ptype == q.ptype && p.required == q.required
    ensures c in PropChanges(n, p, q) <==> c.property == n && PropReported(p, q, c)
  {
    LostValues(p, q);
    LostValues(q, p);
    var lost, gained := Without(p.enumValues, q.enumValues), Without(q.enumValues, p.enumValues);
    if lost != [] {
      assert PropChanges(n, p, q) == [Change(RemoveEnumValue, n, true, Join(lost, ","), "")];
    } else if gained != [] {
      assert PropChanges(n, p, q) == [Change(AddEnumValue, n, false, "", Join(gained, ","))];
    } else {
      WhenHas(p.description != q.description, Change(DescriptionOnly, n, false, "", ""), c);
    }
  }

  lemma PropHas(n: string, p: PropertyDef, q: PropertyDef, c: Change)
    ensures c in PropChanges(n, p, q) <==> c.property == n && PropReported(p, q, c)
  {
    if p.ptype != q.ptype {
      assert PropChanges(n, p, q) == [Change(TypeChanged, n, true, TypeName(p.ptype), TypeName(q.ptype))];
    } else if p.required == q.required {
      EnumHas(n, p, q, c);
    } else {
      assert PropChanges(n, p, q)
        == [if q.required then Change(MakeRequired, n, true, "", "") else Change(MakeOptional, n, false, "", "")];
    }
  }

  lemma {:induction false} SharedHas(names: seq<string>, f: Props, t: Props, c: Change)
    requires forall n :: n in names ==> n in f
    ensures c in SharedChanges(names, f, t) <==> c.property in names && SharedReported(f, t, c)
  {
    if names != [] {
      var front, last := names[..|names| - 1], names[|names| - 1];
      SharedHas(front, f, t, c);
      assert names == front + [last];
      if last in t {
        PropHas(last, f[last], t[last], c);
      }
    }
  }

  lemma {:induction false} RemovedHas(removed: seq<string>, matched: set<string>, c: Change)
    ensures c in RemovedChanges(removed, matched) <==>
      c.property in removed && c.property !in matched && c == Change(RemoveProp, c.property, true, "", "")
  {
    if removed != [] {
      var front, last := removed[..|removed| - 1], removed[|removed| - 1];
      RemovedHas(front, matched, c);
      assert removed == front + [last];
    }
  }

  lemma {:induction false} AddedHas(added: seq<string>, matched: set<string>, t: Props, c: Change)
    requires forall n :: n in added ==> n in t
    ensures c in AddedChanges(added, matched, t) <==>
      c.property in added && c.property !in matched
      && c == (if t[c.property].required then Change(AddRequiredProp, c.property, true, "", "")
               else Change(AddOptionalProp, c.property, false, "", ""))
  {
    if added != [] {
      var front, last := added[..|added| - 1], added[|added| - 1];
      AddedHas(front, matched, t, c);
      assert added == front + [last];
    }
  }

  lemma {:induction false} RenamesHas(pairs: seq<(string, string)>, c: Change)
    ensures c in RenameChanges(pairs) <==>
      c == Change(RenameProp, c.from, true, c.from, c.to) && (c.from, c.to) in pairs
  {
    if pairs != [] {
      var front, last := pairs[..|pairs| - 1], pairs[|pairs| - 1];
      RenamesHas(front, c);
      assert pairs == front + [last];
    }
  }

  // ------------------------------------------------------------------ the whole list

  lemma ChangesHas(from: EventDef, to: EventDef, c: Change)
    ensures var f, t := from.properties, to.properties; var pairs := RenamePairs(f, t);
      c in Changes(from, to) <==>
        || c in EventChanges(from, to)
        || c in RenameChanges(pairs)
        || c in RemovedChanges(RemovedNames(f, t), Firsts(pairs))
        || c in AddedChanges(AddedNames(f, t), Seconds(pairs), t)
        || c in SharedChanges(SortedList(f.Keys), f, t)
  {
  }

  lemma RenamesInChanges(from: EventDef, to: EventDef, c: Change)
    ensures c in Changes(from, to) && c.kind == RenameProp <==>
      c in RenameChanges(RenamePairs(from.properties, to.properties))
  {
    var f, t := from.properties, to.properties;
    var pairs := RenamePairs(f, t);
    ChangesHas(from, to, c);
    EventHas(from, to, c);
    RemovedHas(RemovedNames(f, t), Firsts(pairs), c);
    AddedHas(AddedNames(f, t), Seconds(pairs), t, c);
    SharedHas(SortedList(f.Keys), f, t, c);
    RenamesHas(pairs, c);
  }

  lemma RenamedMeans(from: EventDef, to: EventDef, n: string)
    ensures RenamedFrom(Changes(from, to), n) <==> n in Firsts(RenamePairs(from.properties, to.properties))
    ensures RenamedTo(Changes(from, to), n) <==> n in Seconds(RenamePairs(from.properties, to.properties))
  {
    var pairs, changes := RenamePairs(from.properties, to.properties), Changes(from, to);
    forall r | r in changes && r.kind == RenameProp ensures (r.from, r.to) in pairs {
      RenamesInChanges(from, to, r);
      RenamesHas(pairs, r);
    }
    forall p | p in pairs ensures RenameChange(p) in changes {
      RenamesHas(pairs, RenameChange(p));
      RenamesInChanges(from, to, RenameChange(p));
    }
    if n in Firsts(pairs) {
      var p :| p in pairs && p.0 == n;
      assert RenameChange(p).from == n;
    }
    if n in Seconds(pairs) {
      var p :| p in pairs && p.1 == n;
      assert RenameChange(p).to == n;
    }
  }

  /** Every change that is not a rename is in the list if and only if its cause holds, and
      it then is what its cause says, texts included. */
  lemma ReportedExactlyWhen(from: EventDef, to: EventDef, c: Change)
    requires c.kind != RenameProp
    ensures c in Changes(from, to) <==>
      || EventReported(from, to, c)
      || SharedReported(from.properties, to.properties, c)
      || SideReported(from.properties, to.properties, Changes(from, to), c)
  {
    var f, t := from.properties, to.properties;
    var pairs := RenamePairs(f, t);
    ChangesHas(from, to, c);
    EventHas(from, to, c);
    RenamesHas(pairs, c);
    RemovedHas(RemovedNames(f, t), Firsts(pairs), c);
    AddedHas(AddedNames(f, t), Seconds(pairs), t, c);
    SharedHas(SortedList(f.Keys), f, t, c);
    RenamedMeans(from, to, c.property);
  }

  /** Every rename in the list is one. */
  lemma RenamesAreReported(from: EventDef, to: EventDef, c: Change)
    requires c in Changes(from, to) && c.kind == RenameProp
    ensures RenameReported(from.properties, to.properties, c)
  {
    var f, t := from.properties, to.properties;
    RenamesInChanges(from, to, c);
    RenamesHas(RenamePairs(f, t), c);
    RenameTheorems.NamesAreDistinct(f, t);
    RenameTheorems.RenamesMatch(RemovedNames(f, t), AddedNames(f, t), {}, f, t);
  }

  // ------------------------------------------------------- which renames are chosen

  /** One of the first j pairs has this name on that side. */
  ghost predicate TakenBefore(pairs: seq<(string, string)>, j: nat, b: string) {
    exists i :: 0 <= i < j && i < |pairs| && pairs[i].1 == b
  }

  ghost predicate ServedBefore(pairs: seq<(string, string)>, j: nat, r: string) {
    exists i :: 0 <= i < j && i < |pairs| && pairs[i].0 == r
  }

  lemma TakenShifts(pairs: seq<(string, string)>, p: (string, string), j: nat, n: string)
    ensures TakenBefore(pairs, j, n) || n == p.1 ==> TakenBefore([p] + pairs, j + 1, n)
    ensures ServedBefore(pairs, j, n) || n == p.0 ==> ServedBefore([p] + pairs, j + 1, n)
  {
    var all := [p] + pairs;
    assert all[0] == p;
    if TakenBefore(pairs, j, n) {
      var i :| 0 <= i < j && i < |pairs| && pairs[i].1 == n;
      assert all[i + 1] == pairs[i];
    }
    if ServedBefore(pairs, j, n) {
      var i :| 0 <= i < j && i < |pairs| && pairs[i].0 == n;
      assert all[i + 1] == pairs[i];
    }
  }

  lemma {:induction false} FirstMatchIsFirst(added: seq<string>, used: set<string>, ty: PropertyType, t: Props)
    requires Sorted(added) && forall n :: n in added ==> n in t
    ensures var found := FirstMatch(added, used, ty, t);
      found.Some? ==> forall b :: b in added && Less(b, found.value) && t[b].ptype == ty ==> b in used
  {
    if added != [] {
      if added[0] !in used && t[added[0]].ptype == ty {
        forall b | b in added ensures !Less(b, added[0]) {
          HeadIsLeast(added, b);
          LessIrreflexive(b);
          if Less(added[0], b) && Less(b, added[0]) {
            LessTransitive(b, added[0], b);
          }
        }
      } else {
        assert Sorted(added[1..]);
        FirstMatchIsFirst(added[1..], used, ty, t);
        assert forall b :: b in added ==> b == added[0] || b in added[1..];
      }
    }
  }

  /** Where the first removed name finds nothing, no later one of its type does. */
  lemma {:induction false} NothingLeft(
    removed: seq<string>, added: seq<string>, used: set<string>, f: Props, t: Props, ty: PropertyType)
    requires (forall n :: n in removed ==> n in f) && (forall n :: n in added ==> n in t)
    requires forall n :: n in added && n !in used ==> t[n].ptype != ty
    ensures forall p :: p in Renames(removed, added, used, f, t) ==> p.0 in removed && f[p.0].ptype != ty
  {
    if removed != [] {
      RenameTheorems.FirstMatchFinds(added, used, f[removed[0]].ptype, t);
      match FirstMatch(added, used, f[removed[0]].ptype, t)
      case None => NothingLeft(removed[1..], added, used, f, t, ty);
      case Some(a) => NothingLeft(removed[1..], added, used + {a}, f, t, ty);
    }
  }

  /** The pairs' first names are among these and ascend. */
  ghost predicate Ascending(pairs: seq<(string, string)>, removed: seq<string>) {
    && (forall i :: 0 <= i < |pairs| ==> pairs[i].0 in removed)
    && forall i, j :: 0 <= i < j < |pairs| ==> Less(pairs[i].0, pairs[j].0)
  }

  lemma AscendingCons(removed: seq<string>, a: string, rest: seq<(string, string)>)
    requires removed != [] && Sorted(removed) && Ascending(rest, removed[1..])
    ensures Ascending([(removed[0], a)] + rest, removed)
    ensures Ascending(rest, removed)
  {
    forall n | n in removed[1..] ensures n in removed && Less(removed[0], n) {
      var k :| 0 <= k < |removed[1..]| && removed[1..][k] == n;
      assert removed[k + 1] == n;
    }
  }

  lemma {:induction false} FirstsAscend(
    removed: seq<string>, added: seq<string>, used: set<string>, f: Props, t: Props)
    requires Sorted(removed) && (forall n :: n in removed ==> n in f) && (forall n :: n in added ==> n in t)
    ensures Ascending(Renames(removed, added, used, f, t), removed)
  {
    if removed != [] {
      assert Sorted(removed[1..]);
      match FirstMatch(added, used, f[removed[0]].ptype, t)
      case None =>
        FirstsAscend(removed[1..], added, used, f, t);
        AscendingCons(removed, "", Renames(removed[1..], added, used, f, t));
      case Some(a) =>
        FirstsAscend(removed[1..], added, used + {a}, f, t);
        HeadPair(removed, added, used, f, t, a);
        AscendingCons(removed, a, Renames(removed[1..], added, used + {a}, f, t));
    }
  }

  lemma HeadPair(removed: seq<string>, added: seq<string>, used: set<string>, f: Props, t: Props, a: string)
    requires removed != [] && (forall n :: n in removed ==> n in f) && (forall n :: n in added ==> n in t)
    requires FirstMatch(added, used, f[removed[0]].ptype, t) == Some(a)
    ensures var pairs := Renames(removed, added, used, f, t);
      pairs == [(removed[0], a)] + Renames(removed[1..], added, used + {a}, f, t) && pairs[0] == (removed[0], a)
  {
  }

  /** The j-th pair takes the smallest free added name of its type. */
  lemma {:induction false} TakesSmallest(
    removed: seq<string>, added: seq<string>, used: set<string>, f: Props, t: Props, j: nat, b: string)
    requires Sorted(added) && (forall n :: n in removed ==> n in f) && (forall n :: n in added ==> n in t)
    requires j < |Renames(removed, added, used, f, t)| && b in added && b !in used
    requires var p := Renames(removed, added, used, f, t)[j];
      p.0 in f && Less(b, p.1) && t[b].ptype == f[p.0].ptype
    ensures TakenBefore(Renames(removed, added, used, f, t), j, b)
  {
    FirstMatchIsFirst(added, used, f[removed[0]].ptype, t);
    match FirstMatch(added, used, f[removed[0]].ptype, t)
    case None => TakesSmallest(removed[1..], added, used, f, t, j, b);
    case Some(a) =>
      var rest := Renames(removed[1..], added, used + {a}, f, t);
      HeadPair(removed, added, used, f, t, a);
      if j > 0 {
        if b != a {
          TakesSmallest(removed[1..], added, used + {a}, f, t, j - 1, b);
        }
        TakenShifts(rest, (removed[0], a), j - 1, b);
      }
  }

  /** And the smaller removed names of its type were served before it. */
  lemma {:induction false} ServesSmallest(
    removed: seq<string>, added: seq<string>, used: set<string>, f: Props, t: Props, j: nat, r: string)
    requires Sorted(removed) && (forall n :: n in removed ==> n in f) && (forall n :: n in added ==> n in t)
    requires j < |Renames(removed, added, used, f, t)| && r in removed
    requires var p := Renames(removed, added, used, f, t)[j];
      p.0 in f && Less(r, p.0) && f[r].ptype == f[p.0].ptype
    ensures ServedBefore(Renames(removed, added, used, f, t), j, r)
  {
    assert Sorted(removed[1..]);
    RenameTheorems.FirstMatchFinds(added, used, f[removed[0]].ptype, t);
    match FirstMatch(added, used, f[removed[0]].ptype, t)
    case None =>
      var rest := Renames(removed[1..], added, used, f, t);
      assert rest[j] in rest;
      NothingLeft(removed[1..], added, used, f, t, f[removed[0]].ptype);
      assert r in removed[1..];
      ServesSmallest(removed[1..], added, used, f, t, j, r);
    case Some(a) =>
      var rest := Renames(removed[1..], added, used + {a}, f, t);
      if j > 0 {
        if r != removed[0] {
          assert r in removed[1..];
          ServesSmallest(removed[1..], added, used + {a}, f, t, j - 1, r);
        }
        TakenShifts(rest, (removed[0], a), j - 1, r);
      } else {
        HeadIsLeast(removed, r);
        NotBoth(r, removed[0]);
      }
  }

  lemma NotBoth(a: string, b: string)
    ensures !(Less(a, b) && Less(b, a)) && !Less(a, a)
  {
    LessIrreflexive(a);
    if Less(a, b) && Less(b, a) {
      LessTransitive(a, b, a);
    }
  }

  /** Which renames are chosen: a smaller added name of the same type is the target of
      another rename, and a smaller removed name of the same type is the source of one. */
  lemma RenamesAreGreedy(from: EventDef, to: EventDef, c: Change)
    requires c in Changes(from, to) && c.kind == RenameProp
    ensures RenameReported(from.properties, to.properties, c)
    ensures var f, t := from.properties, to.properties;
      forall b | b in t && b !in f && Less(b, c.to) && t[b].ptype == t[c.to].ptype :: RenamedTo(Changes(from, to), b)
    ensures var f, t := from.properties, to.properties;
      forall r | r in f && r !in t && Less(r, c.from) && f[r].ptype == f[c.from].ptype ::
        RenamedFrom(Changes(from, to), r)
  {
    var f, t := from.properties, to.properties;
    var pairs, removed, added := RenamePairs(f, t), RemovedNames(f, t), AddedNames(f, t);
    RenamesAreReported(from, to, c);
    RenamesInChanges(from, to, c);
    RenamesHas(pairs, c);
    var j :| 0 <= j < |pairs| && pairs[j] == (c.from, c.to);
    WithoutSorted(SortedList(f.Keys), SortedList(t.Keys));
    WithoutSorted(SortedList(t.Keys), SortedList(f.Keys));
    forall b | b in t && b !in f && Less(b, c.to) && t[b].ptype == t[c.to].ptype
      ensures RenamedTo(Changes(from, to), b)
    {
      assert b in added;
      TakesSmallest(removed, added, {}, f, t, j, b);
      var i :| 0 <= i < j && i < |pairs| && pairs[i].1 == b;
      assert pairs[i] in pairs;
      RenamedMeans(from, to, b);
    }
    forall r | r in f && r !in t && Less(r, c.from) && f[r].ptype == f[c.from].ptype
      ensures RenamedFrom(Changes(from, to), r)
    {
      assert r in removed;
      ServesSmallest(removed, added, {}, f, t, j, r);
      var i :| 0 <= i < j && i < |pairs| && pairs[i].0 == r;
      assert pairs[i] in pairs;
      RenamedMeans(from, to, r);
    }
  }

  // ------------------------------------------------------------------------ order

  function Rank(kind: ChangeKind): nat {
    match kind
    case RenameEvent => 0
    case EventTypeChanged => 1
    case StatusChanged => 2
    case SamplingModified => 3
    case ContextPropsModified => 4
    case DestinationsModified => 5
    case PropertyPriorityChanged => 6
    case ProviderOverridesModified => 7
    case MetadataOnly => 8
    case RenameProp => 9
    case RemoveProp => 10
    case AddRequiredProp => 11
    case AddOptionalProp => 11
    case _ => 12
  }

  predicate Before(a: Change, b: Change) {
    Rank(a.kind) < Rank(b.kind) || (Rank(a.kind) == Rank(b.kind) && Less(a.property, b.property))
  }

  ghost predicate Ordered(changes: seq<Change>) {
    forall i, j :: 0 <= i < j < |changes| ==> Before(changes[i], changes[j])
  }

  /** Ordered, with all ranks from low to below high. */
  ghost predicate Section(changes: seq<Change>, low: nat, high: nat) {
    Ordered(changes) && forall i :: 0 <= i < |changes| ==> low <= Rank(changes[i].kind) < high
  }

  lemma SectionsJoin(a: seq<Change>, low: nat, mid: nat, b: seq<Change>, high: nat)
    requires Section(a, low, mid) && Section(b, mid, high) && low <= mid <= high
    ensures Section(a + b, low, high)
  {
  }

  lemma JoinFour(low: nat, a: seq<Change>, b: seq<Change>, c: seq<Change>, d: seq<Change>)
    requires Section(a, low, low + 1) && Section(b, low + 1, low + 2)
    requires Section(c, low + 2, low + 3) && Section(d, low + 3, low + 4)
    ensures Section(a + b + c + d, low, low + 4)
  {
    SectionsJoin(a, low, low + 1, b, low + 2);
    SectionsJoin(a + b, low, low + 2, c, low + 3);
    SectionsJoin(a + b + c, low, low + 3, d, low + 4);
  }

  /** A change that is there if its condition holds, with its rank. */
  ghost predicate Item(changes: seq<Change>, rank: nat) {
    changes == [] || (|changes| == 1 && Rank(changes[0].kind) == rank)
  }

  lemma ItemIsSection(changes: seq<Change>, rank: nat)
    requires Item(changes, rank)
    ensures Section(changes, rank, rank + 1)
  {
  }

  lemma FourItems(low: nat, a: seq<Change>, b: seq<Change>, c: seq<Change>, d: seq<Change>)
    requires Item(a, low) && Item(b, low + 1) && Item(c, low + 2) && Item(d, low + 3)
    ensures Section(a + b + c + d, low, low + 4)
  {
    ItemIsSection(a, low);
    ItemIsSection(b, low + 1);
    ItemIsSection(c, low + 2);
    ItemIsSection(d, low + 3);
    JoinFour(low, a, b, c, d);
  }

  lemma FiveItems(a: seq<Change>, b: seq<Change>, c: seq<Change>, d: seq<Change>, e: seq<Change>)
    requires Item(a, 0) && Item(b, 1) && Item(c, 2) && Item(d, 3) && Item(e, 4)
    ensures Section(a + b + c + d + e, 0, 5)
  {
    FourItems(0, a, b, c, d);
    ItemIsSection(e, 4);
    SectionsJoin(a + b + c + d, 0, 4, e, 5);
  }

  lemma IdentityOrdered(from: EventDef, to: EventDef)
    ensures Section(IdentityChanges(from, to), 0, 5)
  {
    FiveItems(
      When(Renamed(from, to), Change(RenameEvent, "event_name", true, from.eventName, to.eventName)),
      When(from.eventType != to.eventType, Change(EventTypeChanged, "type", true, from.eventType, to.eventType)),
      When(from.status != to.status, StatusChange(from, to)),
      When(from.sampling != to.sampling, Change(SamplingModified, "sampling", false, "", "")),
      When(from.contextProperties != to.contextProperties,
           ListChange(ContextPropsModified, "context_properties", from.contextProperties, to.contextProperties)));
  }

  lemma RoutingOrdered(from: EventDef, to: EventDef)
    ensures Section(RoutingChanges(from, to), 5, 9)
  {
    FourItems(5,
      When(from.destinations != to.destinations,
           ListChange(DestinationsModified, "destinations", from.destinations, to.destinations)),
      When(from.propertyPriority != to.propertyPriority, PriorityChange(from, to)),
      When(!OverridesEqual(from.providerOverrides, to.providerOverrides),
           Change(ProviderOverridesModified, "provider_overrides", false, "", "")),
      When(MetadataDiffers(from, to), Change(MetadataOnly, "metadata", false, "", "")));
  }

  /** One rank, at most one change a name, names ascending: what the loops over sorted
      names produce. */
  ghost predicate ByName(changes: seq<Change>, names: seq<string>, rank: nat) {
    Section(changes, rank, rank + 1) && forall i :: 0 <= i < |changes| ==> changes[i].property in names
  }

  lemma ByNameSnoc(changes: seq<Change>, names: seq<string>, rank: nat, n: string, more: seq<Change>)
    requires ByName(changes, names, rank) && Sorted(names + [n]) && |more| <= 1
    requires forall c :: c in more ==> Rank(c.kind) == rank && c.property == n
    ensures ByName(changes + more, names + [n], rank)
  {
    forall m | m in names ensures Less(m, n) {
      var i :| 0 <= i < |names| && names[i] == m;
      assert (names + [n])[i] == m && (names + [n])[|names|] == n;
    }
    if more != [] {
      assert more[0] in more;
    }
  }

  lemma SortedFront(names: seq<string>)
    requires Sorted(names) && names != []
    ensures Sorted(names[..|names| - 1]) && names == names[..|names| - 1] + [names[|names| - 1]]
  {
  }

  lemma {:induction false} RemovedOrdered(removed: seq<string>, matched: set<string>)
    requires Sorted(removed)
    ensures ByName(RemovedChanges(removed, matched), removed, 10)
  {
    if removed != [] {
      SortedFront(removed);
      var front, last := removed[..|removed| - 1], removed[|removed| - 1];
      RemovedOrdered(front, matched);
      ByNameSnoc(RemovedChanges(front, matched), front, 10, last, RemovedChange(last, matched));
    }
  }

  lemma {:induction false} AddedOrdered(added: seq<string>, matched: set<string>, t: Props)
    requires Sorted(added) && forall n :: n in added ==> n in t
    ensures ByName(AddedChanges(added, matched, t), added, 11)
  {
    if added != [] {
      SortedFront(added);
      var front, last := added[..|added| - 1], added[|added| - 1];
      AddedOrdered(front, matched, t);
      ByNameSnoc(AddedChanges(front, matched, t), front, 11, last, AddedChange(last, matched, t));
    }
  }

  lemma PropOrdered(n: string, p: PropertyDef, q: PropertyDef)
    ensures |PropChanges(n, p, q)| <= 1
    ensures forall c :: c in PropChanges(n, p, q) ==> Rank(c.kind) == 12 && c.property == n
  {
  }

  lemma {:induction false} SharedOrdered(names: seq<string>, f: Props, t: Props)
    requires Sorted(names) && forall n :: n in names ==> n in f
    ensures ByName(SharedChanges(names, f, t), names, 12)
  {
    if names != [] {
      SortedFront(names);
      var front, last := names[..|names| - 1], names[|names| - 1];
      SharedOrdered(front, f, t);
      if last in t {
        PropOrdered(last, f[last], t[last]);
      }
      ByNameSnoc(SharedChanges(front, f, t), front, 12, last, SharedChange(last, f, t));
    }
  }

  lemma {:induction false} RenamesOrdered(pairs: seq<(string, string)>)
    requires forall i, j :: 0 <= i < j < |pairs| ==> Less(pairs[i].0, pairs[j].0)
    ensures |RenameChanges(pairs)| == |pairs|
    ensures forall i :: 0 <= i < |pairs| ==> RenameChanges(pairs)[i] == RenameChange(pairs[i])
    ensures Section(RenameChanges(pairs), 9, 10)
  {
    if pairs != [] {
      RenamesOrdered(pairs[..|pairs| - 1]);
    }
  }

  /** The list is in a strict order, by dimension and then by property name: with what is
      reported fixed, so is the list. */
  lemma ChangesAreOrdered(from: EventDef, to: EventDef)
    ensures Ordered(Changes(from, to))
  {
    var f, t := from.properties, to.properties;
    var pairs := RenamePairs(f, t);
    WithoutSorted(SortedList(f.Keys), SortedList(t.Keys));
    WithoutSorted(SortedList(t.Keys), SortedList(f.Keys));
    IdentityOrdered(from, to);
    RoutingOrdered(from, to);
    FirstsAscend(RemovedNames(f, t), AddedNames(f, t), {}, f, t);
    RenamesOrdered(pairs);
    RemovedOrdered(RemovedNames(f, t), Firsts(pairs));
    AddedOrdered(AddedNames(f, t), Seconds(pairs), t);
    SharedOrdered(SortedList(f.Keys), f, t);
    var e, r := EventChanges(from, to), RenameChanges(pairs);
    var rm := RemovedChanges(RemovedNames(f, t), Firsts(pairs));
    var ad := AddedChanges(AddedNames(f, t), Seconds(pairs), t);
    var sh := SharedChanges(SortedList(f.Keys), f, t);
    SectionsJoin(IdentityChanges(from, to), 0, 5, RoutingChanges(from, to), 9);
    SectionsJoin(e, 0, 9, r, 10);
    SectionsJoin(e + r, 0, 10, rm, 11);
    SectionsJoin(e + r + rm, 0, 11, ad, 12);
    SectionsJoin(e + r + rm + ad, 0, 12, sh, 13);
  }

  // ------------------------------------------------------------- what the list means

  /** The fields whose change needs more than a patch. */
  ghost predicate SameContract(from: EventDef, to: EventDef) {
    && from.name == to.name && from.eventName == to.eventName && from.eventType == to.eventType
    && from.status == to.status && from.sampling == to.sampling && from.contextProperties == to.contextProperties
    && OverridesEqual(from.providerOverrides, to.providerOverrides)
    && from.properties.Keys == to.properties.Keys
    && forall n :: n in from.properties && n in to.properties ==> SameShape(from.properties[n], to.properties[n])
  }

  ghost predicate SameShape(p: PropertyDef, q: PropertyDef) {
    p.ptype == q.ptype && p.required == q.required && forall e :: e in p.enumValues <==> e in q.enumValues
  }

  /** And those whose change needs just one. */
  ghost predicate SameNotes(from: EventDef, to: EventDef) {
    && from.description == to.description && from.displayName == to.displayName
    && from.owner == to.owner && from.tags == to.tags
    && from.destinations == to.destinations && from.propertyPriority == to.propertyPriority
    && forall n :: n in from.properties && n in to.properties ==>
         from.properties[n].description == to.properties[n].description
  }

  lemma Counted(changes: seq<Change>, which: Change -> bool)
    requires RenameTheorems.Count(changes, which) > 0
    ensures exists c :: c in changes && which(c)
  {
    if forall c :: c in changes ==> !which(c) {
      RenameTheorems.CountNone(changes, which);
    }
  }

  lemma OneSidedLevel(n: string, c: Change)
    ensures RenameTheorems.ForRemoved(n)(c) || RenameTheorems.ForAdded(n)(c) ==> VersionBump.BumpLevel(c) > 0
  {
  }

  lemma Accounted(from: EventDef, to: EventDef, n: string) returns (c: Change)
    requires (n in from.properties && n !in to.properties) || (n in to.properties && n !in from.properties)
    ensures c in Changes(from, to) && VersionBump.BumpLevel(c) > 0
  {
    RenameTheorems.EveryPropertyReportedOnce(from, to, n);
    var which := if n in from.properties then RenameTheorems.ForRemoved(n) else RenameTheorems.ForAdded(n);
    Counted(Changes(from, to), which);
    c :| c in Changes(from, to) && which(c);
    OneSidedLevel(n, c);
  }

  /** A difference in the contract is in the list, above patch level. */
  lemma ContractChangeIsReported(from: EventDef, to: EventDef) returns (c: Change)
    requires !SameContract(from, to)
    ensures c in Changes(from, to) && VersionBump.BumpLevel(c) > 0
  {
    if n :| n in from.properties.Keys + to.properties.Keys && !(n in from.properties && n in to.properties) {
      c := Accounted(from, to, n);
      return;
    }
    assert from.properties.Keys == to.properties.Keys;
    if n :| n in from.properties && n in to.properties && !SameShape(from.properties[n], to.properties[n]) {
      c := ShapeChange(n, from.properties[n], to.properties[n]);
    } else {
      c := EventContractChange(from, to);
    }
    ReportedExactlyWhen(from, to, c);
  }

  lemma ShapeChange(n: string, p: PropertyDef, q: PropertyDef) returns (c: Change)
    requires !SameShape(p, q)
    ensures c.property == n && PropReported(p, q, c) && c.kind != RenameProp && VersionBump.BumpLevel(c) > 0
  {
    if p.ptype != q.ptype {
      c := Change(TypeChanged, n, true, TypeName(p.ptype), TypeName(q.ptype));
    } else if p.required != q.required {
      c := if q.required then Change(MakeRequired, n, true, "", "") else Change(MakeOptional, n, false, "", "");
    } else if LosesValue(p, q) {
      c := Change(RemoveEnumValue, n, true, Join(Without(p.enumValues, q.enumValues), ","), "");
    } else {
      assert LosesValue(q, p);
      c := Change(AddEnumValue, n, false, "", Join(Without(q.enumValues, p.enumValues), ","));
    }
  }

  lemma EventContractChange(from: EventDef, to: EventDef) returns (c: Change)
    requires !(&& from.name == to.name && from.eventName == to.eventName && from.eventType == to.eventType
               && from.status == to.status && from.sampling == to.sampling
               && from.contextProperties == to.contextProperties
               && OverridesEqual(from.providerOverrides, to.providerOverrides))
    ensures EventReported(from, to, c) && c.kind != RenameProp && VersionBump.BumpLevel(c) > 0
  {
    if from.name != to.name || from.eventName != to.eventName {
      c := Change(RenameEvent, "event_name", true, from.eventName, to.eventName);
    } else if from.eventType != to.eventType {
      c := Change(EventTypeChanged, "type", true, from.eventType, to.eventType);
    } else if from.status != to.status {
      c := StatusChange(from, to);
    } else if from.sampling != to.sampling {
      c := Change(SamplingModified, "sampling", false, "", "");
    } else if from.contextProperties != to.contextProperties {
      c := ListChange(ContextPropsModified, "context_properties", from.contextProperties, to.contextProperties);
    } else {
      c := Change(ProviderOverridesModified, "provider_overrides", false, "", "");
    }
  }

  /** With the contract kept, only notes are reported, and only at patch level. */
  lemma OnlyNotes(from: EventDef, to: EventDef, c: Change)
    requires SameContract(from, to) && c in Changes(from, to)
    ensures VersionBump.BumpLevel(c) == 0 && !SameNotes(from, to)
  {
    if c.kind == RenameProp {
      RenamesAreReported(from, to, c);
    } else {
      ReportedExactlyWhen(from, to, c);
    }
  }

  lemma NoteIsReported(from: EventDef, to: EventDef) returns (c: Change)
    requires SameContract(from, to) && !SameNotes(from, to)
    ensures c in Changes(from, to)
  {
    var f, t := from.properties, to.properties;
    if from.destinations != to.destinations {
      c := ListChange(DestinationsModified, "destinations", from.destinations, to.destinations);
    } else if from.propertyPriority != to.propertyPriority {
      c := PriorityChange(from, to);
    } else if n :| n in f && n in t && f[n].description != t[n].description {
      assert SameShape(f[n], t[n]);
      c := Change(DescriptionOnly, n, false, "", "");
      assert PropReported(f[n], t[n], c);
    } else {
      c := Change(MetadataOnly, "metadata", false, "", "");
    }
    ReportedExactlyWhen(from, to, c);
  }

  /** The list is empty exactly when the definitions agree on everything compared. */
  lemma NothingReportedExactlyWhen(from: EventDef, to: EventDef)
    ensures Changes(from, to) == [] <==> SameContract(from, to) && SameNotes(from, to)
  {
    if !SameContract(from, to) {
      var c := ContractChangeIsReported(from, to);
    } else if !SameNotes(from, to) {
      var c := NoteIsReported(from, to);
    } else {
      SomeChange(Changes(from, to));
      forall c ensures c !in Changes(from, to) {
        if c in Changes(from, to) {
          OnlyNotes(from, to, c);
        }
      }
    }
  }

  lemma SomeChange(changes: seq<Change>)
    ensures changes != [] ==> exists c :: c in changes
  {
    if changes != [] {
      assert changes[0] in changes;
    }
  }

  /** What the change needs: a patch exactly when the contract is kept, a major version
      exactly when something breaks, a minor one otherwise. */
  lemma LevelOfDiff(from: EventDef, to: EventDef)
    ensures VersionBump.Level(Changes(from, to)) == 0 <==> SameContract(from, to)
    ensures VersionBump.Level(Changes(from, to)) == 2 <==>
      !(&& Compatibility.EventKept(from, to)
        && from.properties.Keys <= to.properties.Keys
        && (forall n :: n in to.properties && n !in from.properties ==> !to.properties[n].required)
        && (forall n :: n in from.properties && n in to.properties ==>
              Compatibility.PropKept(from.properties[n], to.properties[n])))
  {
    var changes := Changes(from, to);
    if SameContract(from, to) {
      forall c | c in changes ensures VersionBump.BumpLevel(c) == 0 {
        OnlyNotes(from, to, c);
      }
    } else {
      var c := ContractChangeIsReported(from, to);
    }
    Compatibility.NonBreakingMeans(from, to);
    assert VersionBump.Level(changes) == 2 <==> exists c :: c in changes && c.breaking;
  }
}
