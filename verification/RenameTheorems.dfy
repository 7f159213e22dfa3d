/** Rename detection is a maximum matching, and every removed or added property is
    reported exactly once. */
module RenameTheorems {
  import opened Common
  import opened SpecModel
  import opened Names
  import opened SpecDiff

  // ------------------------------------------------------------------ matching

  /** A type-preserving one-to-one pairing of names in `removed` with names in `added`. */
  ghost predicate Matching(m: set<(string, string)>, removed: set<string>, added: set<string>, from: Props, to: Props)
    requires removed <= from.Keys && added <= to.Keys
  {
    && (forall p :: p in m ==> p.0 in removed && p.1 in added && from[p.0].ptype == to[p.1].ptype)
    && (forall p, q :: p in m && q in m && (p.0 == q.0 || p.1 == q.1) ==> p == q)
  }

  ghost function Elements<T>(s: seq<T>): set<T> { set x | x in s }

  ghost predicate Distinct(names: seq<string>) {
    forall i, j :: 0 <= i < j < |names| ==> names[i] != names[j]
  }

  lemma {:induction false} FirstMatchFinds(added: seq<string>, used: set<string>, t: PropertyType, to: Props)
    requires forall n :: n in added ==> n in to
    ensures var found := FirstMatch(added, used, t, to);
      && (found.Some? ==> found.value in added && found.value !in used && to[found.value].ptype == t)
      && (found.None? ==> forall n :: n in added && n !in used ==> to[n].ptype != t)
  {
    if added != [] && !(added[0] !in used && t == to[added[0]].ptype) {
      FirstMatchFinds(added[1..], used, t, to);
    }
  }

  /** No name occurs in two pairs. */
  ghost predicate Injective(pairs: seq<(string, string)>) {
    forall i, j :: 0 <= i < j < |pairs| ==> pairs[i].0 != pairs[j].0 && pairs[i].1 != pairs[j].1
  }

  /** Each greedy pair joins a removed name with a free added name of its type, and
      no name occurs twice. */
  lemma {:induction false} RenamesMatch(
    removed: seq<string>, added: seq<string>, used: set<string>, from: Props, to: Props)
    requires (forall n :: n in removed ==> n in from) && (forall n :: n in added ==> n in to)
    requires Distinct(removed)
    ensures var pairs := Renames(removed, added, used, from, to);
      && (forall p :: p in pairs ==> p.0 in removed && p.1 in added && p.1 !in used && from[p.0].ptype == to[p.1].ptype)
      && Injective(pairs)
  {
    if removed != [] {
      FirstMatchFinds(added, used, from[removed[0]].ptype, to);
      match FirstMatch(added, used, from[removed[0]].ptype, to)
      case None =>
        RenamesMatch(removed[1..], added, used, from, to);
      case Some(a) =>
        RenamesMatch(removed[1..], added, used + {a}, from, to);
        var rest := Renames(removed[1..], added, used + {a}, from, to);
        assert forall i :: 0 <= i < |rest| ==> rest[i] in rest;
    }
  }

  lemma InjectiveIsMatching(
    pairs: seq<(string, string)>, removed: set<string>, added: set<string>, from: Props, to: Props)
    requires removed <= from.Keys && added <= to.Keys && Injective(pairs)
    requires forall p :: p in pairs ==> p.0 in removed && p.1 in added && from[p.0].ptype == to[p.1].ptype
    ensures Matching(Elements(pairs), removed, added, from, to)
  {
    forall p, q | p in Elements(pairs) && q in Elements(pairs) && (p.0 == q.0 || p.1 == q.1) ensures p == q {
      var i :| 0 <= i < |pairs| && pairs[i] == p;
      var j :| 0 <= j < |pairs| && pairs[j] == q;
      assert !(i < j) && !(j < i);
    }
  }

  /** Two pairs that hold `r` and `a` apart are exchanged for one that needs neither. */
  lemma Cross(m: set<(string, string)>, removed: set<string>, added: set<string>, from: Props, to: Props,
              p: (string, string), q: (string, string))
    requires removed <= from.Keys && added <= to.Keys && Matching(m, removed, added, from, to)
    requires p in m && q in m && p != q && from[p.0].ptype == to[q.1].ptype
    ensures var m' := m - {p, q} + {(q.0, p.1)};
      Matching(m', removed - {p.0}, added - {q.1}, from, to) && |m'| == |m| - 1
  {
    assert (q.0, p.1) !in m;
    assert |m - {p, q}| == |m| - 2;
  }

  lemma Drop(m: set<(string, string)>, removed: set<string>, added: set<string>, from: Props, to: Props,
             p: (string, string), r: string, a: string)
    requires removed <= from.Keys && added <= to.Keys && Matching(m, removed, added, from, to)
    requires forall q :: q in m && (q.0 == r || q.1 == a) ==> q == p
    ensures Matching(m - {p}, removed - {r}, added - {a}, from, to) && |m| <= |m - {p}| + 1
  {
  }

  /** Give up at most one pair of `m` so that neither `r` nor `a` is used. */
  lemma FreeUp(
    m: set<(string, string)>, removed: set<string>, added: set<string>, from: Props, to: Props, r: string, a: string)
    returns (m': set<(string, string)>)
    requires removed <= from.Keys && added <= to.Keys && Matching(m, removed, added, from, to)
    requires r in removed && a in added && from[r].ptype == to[a].ptype
    ensures Matching(m', removed - {r}, added - {a}, from, to) && |m| <= |m'| + 1
  {
    if p, q :| p in m && p.0 == r && q in m && q.1 == a && p != q {
      Cross(m, removed, added, from, to, p, q);
      m' := m - {p, q} + {(q.0, p.1)};
    } else if p :| p in m && (p.0 == r || p.1 == a) {
      Drop(m, removed, added, from, to, p, r, a);
      m' := m - {p};
    } else {
      m' := m;
    }
  }

  /** No type-preserving matching has more pairs than the greedy one. */
  lemma {:induction false} RenamesAreMaximum(
    removed: seq<string>, added: seq<string>, used: set<string>, from: Props, to: Props, m: set<(string, string)>)
    requires (forall n :: n in removed ==> n in from) && (forall n :: n in added ==> n in to)
    requires Distinct(removed) && Matching(m, Elements(removed), Elements(added) - used, from, to)
    ensures |m| <= |Renames(removed, added, used, from, to)|
  {
    if removed == [] {
      assert m == {} by {
        assert forall p :: p !in m;
      }
    } else {
      var r := removed[0];
      assert Elements(removed) - {r} == Elements(removed[1..]);
      FirstMatchFinds(added, used, from[r].ptype, to);
      match FirstMatch(added, used, from[r].ptype, to)
      case None =>
        RenamesAreMaximum(removed[1..], added, used, from, to, m);
      case Some(a) =>
        var m' := FreeUp(m, Elements(removed), Elements(added) - used, from, to, r, a);
        assert Elements(added) - used - {a} == Elements(added) - (used + {a});
        RenamesAreMaximum(removed[1..], added, used + {a}, from, to, m');
    }
  }

  // ---------------------------------------------------------- counting by type

  ghost function OfType(names: seq<string>, props: Props, t: PropertyType): nat
    requires forall n :: n in names ==> n in props
  {
    if names == [] then 0 else (if props[names[0]].ptype == t then 1 else 0) + OfType(names[1..], props, t)
  }

  ghost function FreeOfType(names: seq<string>, used: set<string>, props: Props, t: PropertyType): nat
    requires forall n :: n in names ==> n in props
  {
    if names == [] then 0
    else (if names[0] !in used && props[names[0]].ptype == t then 1 else 0) + FreeOfType(names[1..], used, props, t)
  }

  ghost function PairsOfType(pairs: seq<(string, string)>, from: Props, t: PropertyType): nat
    requires forall p :: p in pairs ==> p.0 in from
  {
    if pairs == [] then 0 else (if from[pairs[0].0].ptype == t then 1 else 0) + PairsOfType(pairs[1..], from, t)
  }

  lemma {:induction false} UseOne(names: seq<string>, used: set<string>, props: Props, t: PropertyType, a: string)
    requires (forall n :: n in names ==> n in props) && Distinct(names) && a !in used
    ensures FreeOfType(names, used, props, t)
         == FreeOfType(names, used + {a}, props, t) + (if a in names && props[a].ptype == t then 1 else 0)
  {
    if names != [] {
      UseOne(names[1..], used, props, t, a);
    }
  }

  lemma {:induction false} NoneFree(names: seq<string>, used: set<string>, props: Props, t: PropertyType)
    requires forall n :: n in names ==> n in props
    requires forall n :: n in names && n !in used ==> props[n].ptype != t
    ensures FreeOfType(names, used, props, t) == 0
  {
    if names != [] {
      assert names[0] in names;
      NoneFree(names[1..], used, props, t);
    }
  }

  lemma {:induction false} AllFree(names: seq<string>, props: Props, t: PropertyType)
    requires forall n :: n in names ==> n in props
    ensures FreeOfType(names, {}, props, t) == OfType(names, props, t)
  {
    if names != [] {
      AllFree(names[1..], props, t);
    }
  }

  /** The renames of each type number the smaller of the removed and the added
      properties of that type. */
  lemma {:induction false} RenamesByType(
    removed: seq<string>, added: seq<string>, used: set<string>, from: Props, to: Props, t: PropertyType)
    requires (forall n :: n in removed ==> n in from) && (forall n :: n in added ==> n in to)
    requires Distinct(removed) && Distinct(added)
    ensures var pairs := Renames(removed, added, used, from, to);
      && (forall p :: p in pairs ==> p.0 in from)
      && PairsOfType(pairs, from, t) == Min(OfType(removed, from, t), FreeOfType(added, used, to, t))
  {
    if removed != [] {
      FirstMatchFinds(added, used, from[removed[0]].ptype, to);
      match FirstMatch(added, used, from[removed[0]].ptype, to)
      case None =>
        RenamesByType(removed[1..], added, used, from, to, t);
        NoneFree(added, used, to, from[removed[0]].ptype);
      case Some(a) =>
        RenamesByType(removed[1..], added, used + {a}, from, to, t);
        UseOne(added, used, to, t, a);
        var rest := Renames(removed[1..], added, used + {a}, from, to);
        assert ([(removed[0], a)] + rest)[1..] == rest;
    }
  }

  // -------------------------------------------------------------- what is reported

  /** Which changes account for the removed name `n`. */
  function ForRemoved(n: string): Change -> bool {
    (c: Change) => (c.kind == RenameProp && c.from == n) || (c.kind == RemoveProp && c.property == n)
  }

  /** Which changes account for the added name `n`. */
  function ForAdded(n: string): Change -> bool {
    (c: Change) =>
      || (c.kind == RenameProp && c.to == n)
      || ((c.kind == AddRequiredProp || c.kind == AddOptionalProp) && c.property == n)
  }

  function Count(changes: seq<Change>, p: Change -> bool): nat {
    if changes == [] then 0 else (if p(changes[0]) then 1 else 0) + Count(changes[1..], p)
  }

  lemma {:induction false} CountSum(a: seq<Change>, b: seq<Change>, p: Change -> bool)
    ensures Count(a + b, p) == Count(a, p) + Count(b, p)
  {
    if a == [] {
      assert a + b == b;
    } else {
      assert (a + b)[1..] == a[1..] + b;
      CountSum(a[1..], b, p);
    }
  }

  lemma {:induction false} CountNone(changes: seq<Change>, p: Change -> bool)
    requires forall c :: c in changes ==> !p(c)
    ensures Count(changes, p) == 0
  {
    if changes != [] {
      assert changes[0] in changes;
      CountNone(changes[1..], p);
    }
  }

  /** Kinds that speak about a property only one version has. */
  predicate OneSided(c: Change) {
    c.kind in {RenameProp, RemoveProp, AddRequiredProp, AddOptionalProp}
  }

  lemma EventChangesAreNot(from: EventDef, to: EventDef)
    ensures forall c :: c in EventChanges(from, to) ==> !OneSided(c)
  {
    assert forall c :: c in IdentityChanges(from, to) ==> !OneSided(c);
    assert forall c :: c in RoutingChanges(from, to) ==> !OneSided(c);
  }

  lemma {:induction false} SharedChangesAreNot(names: seq<string>, from: Props, to: Props)
    requires forall n :: n in names ==> n in from
    ensures forall c :: c in SharedChanges(names, from, to) ==> !OneSided(c)
  {
    if names != [] {
      SharedChangesAreNot(names[..|names| - 1], from, to);
    }
  }

  lemma {:induction false} CountRenamesFrom(pairs: seq<(string, string)>, n: string)
    requires Injective(pairs)
    ensures Count(RenameChanges(pairs), ForRemoved(n)) == if n in Firsts(pairs) then 1 else 0
  {
    if pairs != [] {
      var front, last := pairs[..|pairs| - 1], pairs[|pairs| - 1];
      assert pairs == front + [last];
      CountRenamesFrom(front, n);
      PairsSnoc(front, last);
      CountSum(RenameChanges(front), [RenameChange(last)], ForRemoved(n));
    }
  }

  lemma {:induction false} CountRenamesTo(pairs: seq<(string, string)>, n: string)
    requires Injective(pairs)
    ensures Count(RenameChanges(pairs), ForAdded(n)) == if n in Seconds(pairs) then 1 else 0
  {
    if pairs != [] {
      var front, last := pairs[..|pairs| - 1], pairs[|pairs| - 1];
      assert pairs == front + [last];
      CountRenamesTo(front, n);
      PairsSnoc(front, last);
      CountSum(RenameChanges(front), [RenameChange(last)], ForAdded(n));
    }
  }

  lemma {:induction false} RemovedKinds(removed: seq<string>, matched: set<string>)
    ensures forall c :: c in RemovedChanges(removed, matched) ==> c.kind == RemoveProp
  {
    if removed != [] {
      RemovedKinds(removed[..|removed| - 1], matched);
    }
  }

  lemma RemovalsAddNothing(removed: seq<string>, matched: set<string>, n: string)
    ensures Count(RemovedChanges(removed, matched), ForAdded(n)) == 0
  {
    RemovedKinds(removed, matched);
    CountNone(RemovedChanges(removed, matched), ForAdded(n));
  }

  lemma {:induction false} AddedKinds(added: seq<string>, matched: set<string>, to: Props)
    requires forall k :: k in added ==> k in to
    ensures forall c :: c in AddedChanges(added, matched, to) ==> c.kind == AddRequiredProp || c.kind == AddOptionalProp
  {
    if added != [] {
      AddedKinds(added[..|added| - 1], matched, to);
    }
  }

  lemma AdditionsRemoveNothing(added: seq<string>, matched: set<string>, to: Props, n: string)
    requires forall k :: k in added ==> k in to
    ensures Count(AddedChanges(added, matched, to), ForRemoved(n)) == 0
  {
    AddedKinds(added, matched, to);
    CountNone(AddedChanges(added, matched, to), ForRemoved(n));
  }

  lemma {:induction false} CountRemoved(removed: seq<string>, matched: set<string>, n: string)
    requires Distinct(removed)
    ensures Count(RemovedChanges(removed, matched), ForRemoved(n)) == if n in removed && n !in matched then 1 else 0
  {
    if removed != [] {
      var front, last := removed[..|removed| - 1], removed[|removed| - 1];
      assert removed == front + [last];
      CountRemoved(front, matched, n);
      CountSum(RemovedChanges(front, matched), RemovedChange(last, matched), ForRemoved(n));
    }
  }

  lemma {:induction false} CountAdded(added: seq<string>, matched: set<string>, to: Props, n: string)
    requires Distinct(added) && forall k :: k in added ==> k in to
    ensures Count(AddedChanges(added, matched, to), ForAdded(n)) == if n in added && n !in matched then 1 else 0
  {
    if added != [] {
      var front, last := added[..|added| - 1], added[|added| - 1];
      assert added == front + [last];
      CountAdded(front, matched, to, n);
      CountSum(AddedChanges(front, matched, to), AddedChange(last, matched, to), ForAdded(n));
    }
  }

  // ------------------------------------------------------------------ theorems

  lemma NamesAreDistinct(from: Props, to: Props)
    ensures Distinct(RemovedNames(from, to)) && Distinct(AddedNames(from, to))
    ensures Elements(RemovedNames(from, to)) == from.Keys - to.Keys
    ensures Elements(AddedNames(from, to)) == to.Keys - from.Keys
  {
    WithoutSorted(SortedList(from.Keys), SortedList(to.Keys));
    WithoutSorted(SortedList(to.Keys), SortedList(from.Keys));
    SortedDistinct(RemovedNames(from, to));
    SortedDistinct(AddedNames(from, to));
  }

  /** Rename detection on whole specifications: one-to-one, type-preserving, at least
      as large as any other such pairing, and by type as large as the smaller side. */
  lemma RenamesAreAMaximumMatching(from: Props, to: Props, other: set<(string, string)>, t: PropertyType)
    requires Matching(other, from.Keys - to.Keys, to.Keys - from.Keys, from, to)
    ensures var pairs := RenamePairs(from, to);
      && Matching(Elements(pairs), from.Keys - to.Keys, to.Keys - from.Keys, from, to)
      && Injective(pairs)
      && |other| <= |pairs|
      && (forall p :: p in pairs ==> p.0 in from)
      && PairsOfType(pairs, from, t)
         == Min(OfType(RemovedNames(from, to), from, t), OfType(AddedNames(from, to), to, t))
  {
    NamesAreDistinct(from, to);
    var removed, added := RemovedNames(from, to), AddedNames(from, to);
    assert Elements(added) - {} == Elements(added);
    RenamesMatch(removed, added, {}, from, to);
    InjectiveIsMatching(RenamePairs(from, to), from.Keys - to.Keys, to.Keys - from.Keys, from, to);
    RenamesAreMaximum(removed, added, {}, from, to, other);
    RenamesByType(removed, added, {}, from, to, t);
    AllFree(added, to, t);
  }

  lemma PairedNames(from: Props, to: Props)
    ensures var pairs := RenamePairs(from, to);
      && Injective(pairs)
      && Firsts(pairs) <= from.Keys - to.Keys
      && Seconds(pairs) <= to.Keys - from.Keys
  {
    NamesAreDistinct(from, to);
    RenamesMatch(RemovedNames(from, to), AddedNames(from, to), {}, from, to);
  }

  lemma CountSections(from: EventDef, to: EventDef, p: Change -> bool)
    requires forall c :: p(c) ==> OneSided(c)
    ensures var f, t := from.properties, to.properties; var pairs := RenamePairs(f, t);
      Count(Changes(from, to), p) ==
        Count(RenameChanges(pairs), p)
        + Count(RemovedChanges(RemovedNames(f, t), Firsts(pairs)), p)
        + Count(AddedChanges(AddedNames(f, t), Seconds(pairs), t), p)
  {
    var f, t := from.properties, to.properties;
    var pairs := RenamePairs(f, t);
    var e, r := EventChanges(from, to), RenameChanges(pairs);
    var rm := RemovedChanges(RemovedNames(f, t), Firsts(pairs));
    var ad := AddedChanges(AddedNames(f, t), Seconds(pairs), t);
    var sh := SharedChanges(SortedList(f.Keys), f, t);
    EventChangesAreNot(from, to);
    SharedChangesAreNot(SortedList(f.Keys), f, t);
    CountNone(e, p);
    CountNone(sh, p);
    CountSum(e + r + rm + ad, sh, p);
    CountSum(e + r + rm, ad, p);
    CountSum(e + r, rm, p);
    CountSum(e, r, p);
  }

  /** Every removed property is accounted for by exactly one rename or removal, and
      every added property by exactly one rename or addition; no other name is. */
  lemma EveryPropertyReportedOnce(from: EventDef, to: EventDef, n: string)
    ensures Count(Changes(from, to), ForRemoved(n))
         == if n in from.properties && n !in to.properties then 1 else 0
    ensures Count(Changes(from, to), ForAdded(n))
         == if n in to.properties && n !in from.properties then 1 else 0
  {
    RemovedReportedOnce(from, to, n);
    AddedReportedOnce(from, to, n);
  }

  lemma RemovedReportedOnce(from: EventDef, to: EventDef, n: string)
    ensures Count(Changes(from, to), ForRemoved(n))
         == if n in from.properties && n !in to.properties then 1 else 0
  {
    var f, t := from.properties, to.properties;
    var pairs := RenamePairs(f, t);
    var removed, added := RemovedNames(f, t), AddedNames(f, t);
    assert Injective(pairs) && Firsts(pairs) <= f.Keys - t.Keys by { PairedNames(f, t); }
    assert Distinct(removed) && Elements(removed) == f.Keys - t.Keys by { NamesAreDistinct(f, t); }
    AdditionsRemoveNothing(added, Seconds(pairs), t, n);
    CountRenamesFrom(pairs, n);
    CountRemoved(removed, Firsts(pairs), n);
    CountSections(from, to, ForRemoved(n));
    assert n in removed <==> n in Elements(removed);
  }

  lemma AddedReportedOnce(from: EventDef, to: EventDef, n: string)
    ensures Count(Changes(from, to), ForAdded(n))
         == if n in to.properties && n !in from.properties then 1 else 0
  {
    var f, t := from.properties, to.properties;
    var pairs := RenamePairs(f, t);
    var removed, added := RemovedNames(f, t), AddedNames(f, t);
    assert Injective(pairs) && Seconds(pairs) <= t.Keys - f.Keys by { PairedNames(f, t); }
    assert Distinct(added) && Elements(added) == t.Keys - f.Keys by { NamesAreDistinct(f, t); }
    RemovalsAddNothing(removed, Firsts(pairs), n);
    CountRenamesTo(pairs, n);
    CountAdded(added, Seconds(pairs), t, n);
    CountSections(from, to, ForAdded(n));
    assert n in added <==> n in Elements(added);
  }
}
