/** The registry's index and its three ways of choosing the latest version. */
module LatestVersions {
  import opened Common
  import opened SpecModel
  import SchemaVersions

  datatype Key = Key(ns: string, name: string)

  function KeyOf(e: EventDef): Key { Key(e.namespace, e.name) }

  predicate Parses(e: EventDef) { SchemaVersions.Parse(e.version).Some? }

  function Ver(e: EventDef): SchemaVersions.SchemaVer
    requires Parses(e)
  {
    SchemaVersions.Parse(e.version).value
  }

  predicate Above(a: EventDef, b: EventDef)
    requires Parses(a) && Parses(b)
  {
    SchemaVersions.Compare(Ver(a), Ver(b)) > 0
  }

  // ------------------------------------------------------ what latest means

  predicate Eligible(e: EventDef, k: Key, active: bool) {
    KeyOf(e) == k && (active ==> e.status.Active?) && Parses(e)
  }

  /** e is eligible for k and no eligible event of the pool is above it. */
  ghost predicate Latest(pool: seq<EventDef>, k: Key, active: bool, e: EventDef) {
    && e in pool && Eligible(e, k, active)
    && forall x :: x in pool && Eligible(x, k, active) ==> !Above(x, e)
  }

  ghost predicate NoneEligible(pool: seq<EventDef>, k: Key, active: bool) {
    forall x :: x in pool ==> !Eligible(x, k, active)
  }

  /** The order is total: what is not above stays not above a higher event. */
  lemma {:induction false} NotAboveIsTransitive(x: EventDef, y: EventDef, z: EventDef)
    requires Parses(x) && Parses(y) && Parses(z)
    ensures !Above(x, x)
    ensures !Above(x, y) && !Above(y, z) ==> !Above(x, z)
    ensures Above(y, x) ==> !Above(x, y)
  {
    SchemaVersions.ParsedInRange(x.version);
    SchemaVersions.ParsedInRange(y.version);
    SchemaVersions.ParsedInRange(z.version);
    SchemaVersions.CompareIsLexicographic(Ver(x), Ver(x));
    SchemaVersions.CompareIsLexicographic(Ver(x), Ver(y));
    SchemaVersions.CompareIsLexicographic(Ver(y), Ver(x));
    SchemaVersions.CompareIsLexicographic(Ver(y), Ver(z));
    SchemaVersions.CompareIsLexicographic(Ver(x), Ver(z));
  }

  /** Two latest events of pools with the same members compare equal. */
  lemma {:induction false} LatestAgree(
    p: seq<EventDef>, q: seq<EventDef>, k: Key, active: bool, a: EventDef, b: EventDef)
    requires forall e :: e in p && Eligible(e, k, active) <==> e in q && Eligible(e, k, active)
    requires Latest(p, k, active, a) && Latest(q, k, active, b)
    ensures SchemaVersions.Compare(Ver(a), Ver(b)) == 0 && SchemaVersions.SameTriple(Ver(a), Ver(b))
  {
    assert !Above(a, b) && !Above(b, a);
    SchemaVersions.ParsedInRange(a.version);
    SchemaVersions.ParsedInRange(b.version);
    SchemaVersions.CompareIsLexicographic(Ver(a), Ver(b));
    SchemaVersions.CompareIsLexicographic(Ver(b), Ver(a));
  }

  // One candidate more: the running best of a pool.

  lemma LatestSnocKeeps(pool: seq<EventDef>, k: Key, active: bool, best: EventDef, e: EventDef)
    requires Latest(pool, k, active, best) && (Eligible(e, k, active) ==> !Above(e, best))
    ensures Latest(pool + [e], k, active, best)
  {
  }

  lemma LatestSnocMoves(pool: seq<EventDef>, k: Key, active: bool, best: EventDef, e: EventDef)
    requires Latest(pool, k, active, best) && Eligible(e, k, active) && Above(e, best)
    ensures Latest(pool + [e], k, active, e)
  {
    forall x | x in pool + [e] && Eligible(x, k, active) ensures !Above(x, e) {
      if x in pool {
        NotAboveIsTransitive(best, e, x);
        NotAboveIsTransitive(x, best, e);
      } else {
        NotAboveIsTransitive(e, e, e);
      }
    }
  }

  lemma LatestSnocFirst(pool: seq<EventDef>, k: Key, active: bool, e: EventDef)
    requires NoneEligible(pool, k, active) && Eligible(e, k, active)
    ensures Latest(pool + [e], k, active, e)
  {
    NotAboveIsTransitive(e, e, e);
  }

  lemma NoneEligibleSnoc(pool: seq<EventDef>, k: Key, active: bool, e: EventDef)
    requires NoneEligible(pool, k, active) && !Eligible(e, k, active)
    ensures NoneEligible(pool + [e], k, active)
  {
  }

  /** The best so far: none yet, or the latest of the pool. */
  ghost predicate Best(pool: seq<EventDef>, k: Key, active: bool, best: Option<EventDef>) {
    match best
    case None => NoneEligible(pool, k, active)
    case Some(e) => Latest(pool, k, active, e)
  }

  lemma {:induction false} BestSnoc(pool: seq<EventDef>, k: Key, active: bool, best: Option<EventDef>, e: EventDef)
    requires Best(pool, k, active, best)
    ensures best.Some? ==> Parses(best.value)
    ensures !Eligible(e, k, active) ==> Best(pool + [e], k, active, best)
    ensures Eligible(e, k, active) && (best.None? || Above(e, best.value)) ==> Best(pool + [e], k, active, Some(e))
    ensures Eligible(e, k, active) && best.Some? && !Above(e, best.value) ==> Best(pool + [e], k, active, best)
  {
    match best
    case None =>
      if Eligible(e, k, active) { LatestSnocFirst(pool, k, active, e); } else { NoneEligibleSnoc(pool, k, active, e); }
    case Some(b) =>
      if Eligible(e, k, active) && Above(e, b) { LatestSnocMoves(pool, k, active, b, e); }
      else { LatestSnocKeeps(pool, k, active, b, e); }
  }

  // ------------------------------------------------------ DeduplicateByLatest

  function Lookup(best: map<Key, EventDef>, k: Key): Option<EventDef> {
    if k in best then Some(best[k]) else None
  }

  ghost predicate BestPerKey(pool: seq<EventDef>, best: map<Key, EventDef>) {
    forall k :: Best(pool, k, false, Lookup(best, k))
  }

  lemma {:induction false} BestPerKeySnoc(pool: seq<EventDef>, best: map<Key, EventDef>, e: EventDef)
    requires BestPerKey(pool, best)
    ensures KeyOf(e) in best ==> Parses(best[KeyOf(e)])
    ensures !Parses(e) ==> BestPerKey(pool + [e], best)
    ensures Parses(e) && (KeyOf(e) !in best || Above(e, best[KeyOf(e)])) ==> BestPerKey(pool + [e], best[KeyOf(e) := e])
    ensures Parses(e) && KeyOf(e) in best && !Above(e, best[KeyOf(e)]) ==> BestPerKey(pool + [e], best)
  {
    assert Best(pool, KeyOf(e), false, Lookup(best, KeyOf(e)));
    var best' := if Parses(e) && (KeyOf(e) !in best || Above(e, best[KeyOf(e)])) then best[KeyOf(e) := e] else best;
    forall k ensures Best(pool + [e], k, false, Lookup(best', k)) {
      assert Best(pool, k, false, Lookup(best, k));
      BestSnoc(pool, k, false, Lookup(best, k), e);
    }
  }

  ghost predicate Represented(out: seq<EventDef>, k: Key) {
    exists o :: o in out && KeyOf(o) == k
  }

  ghost predicate DistinctKeys(out: seq<EventDef>) {
    forall i, j :: 0 <= i < j < |out| ==> KeyOf(out[i]) != KeyOf(out[j])
  }

  /** One event per key, the latest of its key; every key with a parseable version. */
  ghost predicate Deduplicated(events: seq<EventDef>, out: seq<EventDef>) {
    && DistinctKeys(out)
    && (forall o :: o in out ==> Latest(events, KeyOf(o), false, o))
    && (forall e :: e in events && Parses(e) ==> Represented(out, KeyOf(e)))
  }

  method DeduplicateByLatest(events: seq<EventDef>) returns (out: seq<EventDef>)
    ensures Deduplicated(events, out)
  {
    var best: map<Key, EventDef> := map[];
    for i := 0 to |events|
      invariant BestPerKey(events[..i], best)
    {
      var e := events[i];
      BestPerKeySnoc(events[..i], best, e);
      assert events[..i + 1] == events[..i] + [e];
      if Parses(e) {
        if KeyOf(e) !in best || Above(e, best[KeyOf(e)]) {
          best := best[KeyOf(e) := e];
        }
      }
    }
    assert events[..|events|] == events;
    BestKeyed(events, best);
    out := Values(best);
    ValuesAreDeduplicated(events, best, out);
  }

  ghost predicate Keyed(best: map<Key, EventDef>) {
    forall k :: k in best ==> KeyOf(best[k]) == k
  }

  lemma BestKeyed(events: seq<EventDef>, best: map<Key, EventDef>)
    requires BestPerKey(events, best)
    ensures Keyed(best)
  {
    forall k | k in best ensures KeyOf(best[k]) == k {
      assert Best(events, k, false, Lookup(best, k));
    }
  }

  /** The map's values, in whatever order its keys come. */
  method Values(best: map<Key, EventDef>) returns (out: seq<EventDef>)
    requires Keyed(best)
    ensures DistinctKeys(out) && forall e :: e in out <==> KeyOf(e) in best && best[KeyOf(e)] == e
  {
    out := [];
    var todo := best.Keys;
    while todo != {}
      invariant todo <= best.Keys && DistinctKeys(out)
      invariant forall e :: e in out <==> KeyOf(e) in best && KeyOf(e) !in todo && best[KeyOf(e)] == e
      decreases |todo|
    {
      var k :| k in todo;
      assert KeyOf(best[k]) == k;
      assert forall i :: 0 <= i < |out| ==> out[i] in out && KeyOf(out[i]) != k;
      out := out + [best[k]];
      todo := todo - {k};
    }
  }

  lemma ValuesAreDeduplicated(events: seq<EventDef>, best: map<Key, EventDef>, out: seq<EventDef>)
    requires BestPerKey(events, best) && DistinctKeys(out)
    requires forall e :: e in out <==> KeyOf(e) in best && best[KeyOf(e)] == e
    ensures Deduplicated(events, out)
  {
    BestKeyed(events, best);
    forall o | o in out ensures Latest(events, KeyOf(o), false, o) {
      assert Best(events, KeyOf(o), false, Lookup(best, KeyOf(o)));
    }
    forall e | e in events && Parses(e) ensures Represented(out, KeyOf(e)) {
      var k := KeyOf(e);
      assert Best(events, k, false, Lookup(best, k)) && Eligible(e, k, false);
      assert best[k] in out;
    }
  }

  // ------------------------------------------------------------ selectVersions

  function PinKey(k: Key): string { k.ns + "/" + k.name }

  /** The keys in the order of their first events. */
  function Order(defs: seq<EventDef>): seq<Key> {
    if defs == [] then []
    else
      var front, k := Order(defs[..|defs| - 1]), KeyOf(defs[|defs| - 1]);
      if k in front then front else front + [k]
  }

  ghost predicate Distinct(keys: seq<Key>) {
    forall i, j :: 0 <= i < j < |keys| ==> keys[i] != keys[j]
  }

  /** Each key of the input once. */
  lemma {:induction false} OrderHasEachKeyOnce(defs: seq<EventDef>)
    ensures Distinct(Order(defs)) && forall k :: k in Order(defs) <==> Represented(defs, k)
    decreases |defs|
  {
    if defs != [] {
      var front, last := defs[..|defs| - 1], defs[|defs| - 1];
      OrderHasEachKeyOnce(front);
      RepresentedSnoc(front, last);
      assert defs == front + [last];
      assert forall k :: Represented(defs, k) ==> Represented(front, k) || k == KeyOf(last);
    }
  }

  /** A longer input only adds keys at the end: the order is that of first occurrence. */
  lemma {:induction false} OrderIsByFirstOccurrence(defs: seq<EventDef>, more: seq<EventDef>)
    ensures Order(defs) <= Order(defs + more)
    decreases |more|
  {
    if more == [] {
      assert defs + more == defs;
    } else {
      var n := |more| - 1;
      assert (defs + more)[..|defs| + n] == defs + more[..n];
      OrderIsByFirstOccurrence(defs, more[..n]);
    }
  }

  function Group(defs: seq<EventDef>, k: Key): seq<EventDef> {
    if defs == [] then []
    else
      var last := defs[|defs| - 1];
      Group(defs[..|defs| - 1], k) + if KeyOf(last) == k then [last] else []
  }

  lemma {:induction false} GroupMembers(defs: seq<EventDef>, k: Key)
    ensures forall e :: e in Group(defs, k) <==> e in defs && KeyOf(e) == k
    decreases |defs|
  {
    if defs != [] {
      GroupMembers(defs[..|defs| - 1], k);
      assert defs == defs[..|defs| - 1] + [defs[|defs| - 1]];
    }
  }

  /** The first event of that key and version. */
  ghost predicate FirstPinned(defs: seq<EventDef>, k: Key, version: string, e: EventDef) {
    exists i :: 0 <= i < |defs| && defs[i] == e && KeyOf(e) == k && e.version == version
                && forall j :: 0 <= j < i && KeyOf(defs[j]) == k ==> defs[j].version != version
  }

  /** What selectVersions picks for a key: the first event of the pinned version if there
      is a pin, and otherwise a latest active one; nothing if there is none. */
  ghost predicate Choice(defs: seq<EventDef>, pinning: map<string, string>, k: Key, choice: Option<EventDef>) {
    if k.ns + "/" + k.name in pinning then
      match choice
      case Some(e) => FirstPinned(defs, k, pinning[k.ns + "/" + k.name], e)
      case None => forall e :: e in defs && KeyOf(e) == k ==> e.version != pinning[k.ns + "/" + k.name]
    else Best(defs, k, true, choice)
  }

  /** First in the group is first in the input. */
  lemma {:induction false} FirstOfGroup(defs: seq<EventDef>, k: Key, version: string, i: nat)
    requires i < |Group(defs, k)| && Group(defs, k)[i].version == version
    requires forall j :: 0 <= j < i ==> Group(defs, k)[j].version != version
    ensures FirstPinned(defs, k, version, Group(defs, k)[i])
    decreases |defs|
  {
    var n := |defs| - 1;
    var front := Group(defs[..n], k);
    if i < |front| {
      assert forall j :: 0 <= j <= i ==> front[j] == Group(defs, k)[j];
      FirstOfGroup(defs[..n], k, version, i);
      var p :| 0 <= p < n && defs[..n][p] == front[i] && KeyOf(front[i]) == k && front[i].version == version
        && forall j :: 0 <= j < p && KeyOf(defs[..n][j]) == k ==> defs[..n][j].version != version;
      assert defs[p] == front[i] && forall j :: 0 <= j < p ==> defs[..n][j] == defs[j];
    } else {
      GroupMembers(defs[..n], k);
      assert Group(defs, k)[i] == defs[n] && KeyOf(defs[n]) == k;
      forall j | 0 <= j < n && KeyOf(defs[j]) == k ensures defs[j].version != version {
        assert defs[..n][j] == defs[j] && defs[j] in defs[..n];
        var q :| 0 <= q < |front| && front[q] == defs[j];
        assert Group(defs, k)[q] == front[q];
      }
    }
  }

  method FindPinned(pool: seq<EventDef>, version: string, ghost defs: seq<EventDef>, ghost k: Key)
    returns (r: Option<EventDef>)
    requires pool == Group(defs, k)
    ensures r.Some? ==> FirstPinned(defs, k, version, r.value)
    ensures r.None? ==> forall e :: e in defs && KeyOf(e) == k ==> e.version != version
  {
    GroupMembers(defs, k);
    for i := 0 to |pool|
      invariant forall j :: 0 <= j < i ==> pool[j].version != version
    {
      if pool[i].version == version {
        FirstOfGroup(defs, k, version, i);
        return Some(pool[i]);
      }
    }
    r := None;
  }

  method HighestActive(versions: seq<EventDef>, ghost k: Key) returns (best: Option<EventDef>)
    requires forall e :: e in versions ==> KeyOf(e) == k
    ensures Best(versions, k, true, best)
  {
    best := None;
    for i := 0 to |versions|
      invariant Best(versions[..i], k, true, best)
    {
      var e := versions[i];
      BestSnoc(versions[..i], k, true, best, e);
      assert versions[..i + 1] == versions[..i] + [e] && e in versions;
      if e.status.Active? && Parses(e) {
        if best.None? || Above(e, best.value) {
          best := Some(e);
        }
      }
    }
    assert versions[..|versions|] == versions;
  }

  lemma {:induction false} BestOfGroup(defs: seq<EventDef>, k: Key, active: bool, best: Option<EventDef>)
    requires Best(Group(defs, k), k, active, best)
    ensures Best(defs, k, active, best)
  {
    GroupMembers(defs, k);
  }

  method Choose(
    versions: seq<EventDef>, pinning: map<string, string>, k: Key, ghost defs: seq<EventDef>)
    returns (r: Option<EventDef>)
    requires versions == Group(defs, k)
    ensures Choice(defs, pinning, k, r)
    ensures r.Some? ==> KeyOf(r.value) == k
  {
    GroupMembers(defs, k);
    if PinKey(k) in pinning {
      r := FindPinned(versions, pinning[PinKey(k)], defs, k);
    } else {
      r := HighestActive(versions, k);
      BestOfGroup(defs, k, true, r);
    }
  }

  /** The keys in the order of their first events, and each key's events. */
  method GroupByKey(defs: seq<EventDef>) returns (order: seq<Key>, groups: map<Key, seq<EventDef>>)
    ensures order == Order(defs) && forall k :: k in order ==> k in groups && groups[k] == Group(defs, k)
  {
    order, groups := [], map[];
    for i := 0 to |defs|
      invariant order == Order(defs[..i]) && forall k :: k in order <==> k in groups
      invariant forall k :: Group(defs[..i], k) == if k in groups then groups[k] else []
    {
      var k := KeyOf(defs[i]);
      assert defs[..i + 1][..i] == defs[..i];
      if k !in groups {
        order := order + [k];
        groups := groups[k := [defs[i]]];
      } else {
        groups := groups[k := groups[k] + [defs[i]]];
      }
    }
    assert defs[..|defs|] == defs;
  }

  /** The selection from a list of keys: key by key its choice, if it has one. */
  ghost predicate Picks(defs: seq<EventDef>, pinning: map<string, string>, keys: seq<Key>, out: seq<EventDef>)
    decreases |keys|
  {
    if keys == [] then out == []
    else
      var n, m := |keys| - 1, |out| - 1;
      || (Choice(defs, pinning, keys[n], None) && Picks(defs, pinning, keys[..n], out))
      || (m >= 0 && KeyOf(out[m]) == keys[n] && Choice(defs, pinning, keys[n], Some(out[m]))
          && Picks(defs, pinning, keys[..n], out[..m]))
  }

  method SelectVersions(defs: seq<EventDef>, pinning: map<string, string>) returns (out: seq<EventDef>)
    ensures Picks(defs, pinning, Order(defs), out)
  {
    var order, groups := GroupByKey(defs);
    out := [];
    for n := 0 to |order|
      invariant Picks(defs, pinning, order[..n], out)
    {
      var choice := Choose(groups[order[n]], pinning, order[n], defs);
      assert order[..n + 1][..n] == order[..n];
      if choice.Some? {
        assert (out + [choice.value])[..|out|] == out;
        out := out + [choice.value];
      }
    }
    assert order[..|order|] == order;
  }

  /** Every selected event is its key's choice, no key is selected twice, and a key is
      left out only if it has no choice. */
  ghost predicate Chosen(defs: seq<EventDef>, pinning: map<string, string>, keys: seq<Key>, out: seq<EventDef>) {
    && (forall e :: e in out ==> KeyOf(e) in keys && Choice(defs, pinning, KeyOf(e), Some(e)))
    && (forall k :: k in keys ==> Represented(out, k) || Choice(defs, pinning, k, None))
    && DistinctKeys(out)
  }

  lemma DistinctKeysSnoc(out: seq<EventDef>, e: EventDef)
    requires DistinctKeys(out) && forall o :: o in out ==> KeyOf(o) != KeyOf(e)
    ensures DistinctKeys(out + [e])
  {
    assert forall i :: 0 <= i < |out| ==> out[i] in out;
  }

  lemma {:induction false} ChosenSnoc(
    defs: seq<EventDef>, pinning: map<string, string>, keys: seq<Key>, out: seq<EventDef>)
    requires keys != [] && out != [] && Distinct(keys) && KeyOf(out[|out| - 1]) == keys[|keys| - 1]
    requires Choice(defs, pinning, keys[|keys| - 1], Some(out[|out| - 1]))
    requires Chosen(defs, pinning, keys[..|keys| - 1], out[..|out| - 1])
    ensures Chosen(defs, pinning, keys, out)
  {
    var front, e, rest := keys[..|keys| - 1], out[|out| - 1], out[..|out| - 1];
    RepresentedSnoc(rest, e);
    DistinctKeysSnoc(rest, e);
    assert keys == front + [KeyOf(e)] && out == rest + [e];
  }

  lemma ChosenSkip(defs: seq<EventDef>, pinning: map<string, string>, keys: seq<Key>, out: seq<EventDef>)
    requires keys != [] && Choice(defs, pinning, keys[|keys| - 1], None)
    requires Chosen(defs, pinning, keys[..|keys| - 1], out)
    ensures Chosen(defs, pinning, keys, out)
  {
    assert keys == keys[..|keys| - 1] + [keys[|keys| - 1]];
  }

  lemma {:induction false} PicksAreTheChoices(
    defs: seq<EventDef>, pinning: map<string, string>, keys: seq<Key>, out: seq<EventDef>)
    requires Picks(defs, pinning, keys, out) && Distinct(keys)
    ensures Chosen(defs, pinning, keys, out)
    decreases |keys|
  {
    if keys != [] {
      var front := keys[..|keys| - 1];
      if Choice(defs, pinning, keys[|keys| - 1], None) && Picks(defs, pinning, front, out) {
        PicksAreTheChoices(defs, pinning, front, out);
        ChosenSkip(defs, pinning, keys, out);
      } else {
        PicksAreTheChoices(defs, pinning, front, out[..|out| - 1]);
        ChosenSnoc(defs, pinning, keys, out);
      }
    }
  }

  lemma RepresentedSnoc(out: seq<EventDef>, e: EventDef)
    ensures Represented(out + [e], KeyOf(e))
    ensures forall k :: Represented(out, k) ==> Represented(out + [e], k)
  {
    assert e in out + [e];
    forall k | Represented(out, k) ensures Represented(out + [e], k) {
      var o :| o in out && KeyOf(o) == k;
      assert o in out + [e];
    }
  }

  /** A pin that names a version the input has is honoured, alone. */
  lemma PinIsHonoured(defs: seq<EventDef>, pinning: map<string, string>, out: seq<EventDef>, e: EventDef)
    requires Picks(defs, pinning, Order(defs), out) && e in defs
    requires e.namespace + "/" + e.name in pinning && pinning[e.namespace + "/" + e.name] == e.version
    ensures exists o :: o in out && KeyOf(o) == KeyOf(e)
    ensures forall o :: o in out && KeyOf(o) == KeyOf(e) ==> o.version == e.version
    ensures DistinctKeys(out)
  {
    OrderHasEachKeyOnce(defs);
    PicksAreTheChoices(defs, pinning, Order(defs), out);
    assert Represented(defs, KeyOf(e));
    assert Represented(out, KeyOf(e));
  }
}
