/** The local registry's in-memory index, its lookups, and the agreement of the three
    selectors over it. */
module RegistryIndex {
  import opened Common
  import opened SpecModel
  import opened LatestVersions
  import SchemaVersions

  // ------------------------------------------------------------- index keys

  function EventKey(ns: string, name: string, version: string): string {
    ns + "/" + name + "/" + version
  }

  /** A slash-free tail after the last slash can be read back. */
  lemma {:induction false} LastSlashSplits(a: string, x: string, b: string, y: string)
    requires a + "/" + x == b + "/" + y && '/' !in x && '/' !in y
    ensures a == b && x == y
    decreases |x|
  {
    var s := a + "/" + x;
    assert |x| == |y| by {
      assert s[|a|] == '/' && s[|b|] == '/';
      assert forall i :: |a| < i < |s| ==> s[i] == x[i - |a| - 1];
      assert forall i :: |b| < i < |s| ==> s[i] == y[i - |b| - 1];
    }
    assert s[..|a|] == a && s[..|a|] == b;
    assert s[|a| + 1..] == x && s[|a| + 1..] == y;
  }

  /** For slash-free names and versions the key determines its three parts, whatever
      the namespaces are. */
  lemma EventKeyIsInjective(ns: string, name: string, version: string, ns': string, name': string, version': string)
    requires '/' !in name && '/' !in name' && '/' !in version && '/' !in version'
    ensures EventKey(ns, name, version) == EventKey(ns', name', version') <==>
      ns == ns' && name == name' && version == version'
  {
    if EventKey(ns, name, version) == EventKey(ns', name', version') {
      LastSlashSplits(ns + "/" + name, version, ns' + "/" + name', version');
      LastSlashSplits(ns, name, ns', name');
    }
  }

  /** Another event version with the same key. */
  ghost predicate Collides(ns: string, name: string, version: string) {
    exists ns', name', version' ::
      (ns', name', version') != (ns, name, version) && EventKey(ns', name', version') == EventKey(ns, name, version)
  }

  /** The text before and after some slash. */
  lemma SlashSplits(s: string) returns (x: string, y: string)
    requires '/' in s
    ensures s == x + "/" + y
  {
    var i :| 0 <= i < |s| && s[i] == '/';
    x, y := s[..i], s[i + 1..];
  }

  /** A slash anywhere lets the key be cut at another place. */
  lemma SlashCollides(ns: string, name: string, version: string)
    requires '/' in ns || '/' in name || '/' in version
    ensures Collides(ns, name, version)
  {
    if '/' in ns {
      var x, y := SlashSplits(ns);
      Regrouped(x, y, name, version);
      assert EventKey(x, y + "/" + name, version) == EventKey(ns, name, version) && |x| < |ns|;
    } else if '/' in name {
      var x, y := SlashSplits(name);
      Regrouped(ns, x, y, version);
      assert EventKey(ns + "/" + x, y, version) == EventKey(ns, name, version) && |y| < |name|;
    } else {
      var x, y := SlashSplits(version);
      assert EventKey(ns + "/" + name, x, y) == EventKey(ns, name, version) by {
        assert ns + "/" + name + "/" + (x + "/" + y) == ns + "/" + name + "/" + x + "/" + y;
      }
      assert |y| < |version|;
    }
  }

  lemma Regrouped(a: string, b: string, c: string, version: string)
    ensures EventKey(a, b + "/" + c, version) == EventKey(a + "/" + b, c, version)
  {
    assert a + "/" + (b + "/" + c) == a + "/" + b + "/" + c;
  }

  function Slashes(s: string): nat {
    if s == "" then 0 else Slashes(s[..|s| - 1]) + if s[|s| - 1] == '/' then 1 else 0
  }

  lemma {:induction false} SlashesAdd(a: string, b: string)
    ensures Slashes(a + b) == Slashes(a) + Slashes(b)
    decreases |b|
  {
    if b == "" {
      assert a + b == a;
    } else {
      assert (a + b)[..|a + b| - 1] == a + b[..|b| - 1];
      SlashesAdd(a, b[..|b| - 1]);
    }
  }

  lemma {:induction false} NoSlashes(s: string)
    ensures Slashes(s) == 0 <==> '/' !in s
  {
    if s != "" {
      NoSlashes(s[..|s| - 1]);
      assert s == s[..|s| - 1] + [s[|s| - 1]];
    }
  }

  lemma SlashesOfKey(ns: string, name: string, version: string)
    ensures Slashes(EventKey(ns, name, version)) == Slashes(ns) + Slashes(name) + Slashes(version) + 2
  {
    SlashesAdd(ns + "/" + name + "/", version);
    SlashesAdd(ns + "/" + name, "/");
    SlashesAdd(ns + "/", name);
    SlashesAdd(ns, "/");
    assert Slashes("/") == 1;
  }

  /** An event version shares its key with another if and only if one of its three
      parts has a slash. */
  lemma CollidesExactlyWhen(ns: string, name: string, version: string)
    ensures Collides(ns, name, version) <==> '/' in ns || '/' in name || '/' in version
  {
    NoSlashes(ns);
    NoSlashes(name);
    NoSlashes(version);
    if '/' in ns || '/' in name || '/' in version {
      SlashCollides(ns, name, version);
    } else {
      forall ns', name', version' | EventKey(ns', name', version') == EventKey(ns, name, version)
        ensures (ns', name', version') == (ns, name, version)
      {
        SlashesOfKey(ns, name, version);
        SlashesOfKey(ns', name', version');
        NoSlashes(name');
        NoSlashes(version');
        EventKeyIsInjective(ns, name, version, ns', name', version');
      }
    }
  }

  /** Such versions exist: text after the last number is not looked at. */
  lemma SlashedVersionParses(major: nat, minor: nat, patch: nat, tail: string)
    requires major <= SchemaVersions.MAX_INT && minor <= SchemaVersions.MAX_INT && patch <= SchemaVersions.MAX_INT
    requires '-' !in tail
    ensures SchemaVersions.Parse(SchemaVersions.PrintTriple(major, minor, patch) + "/" + tail).Some?
  {
    SchemaVersions.ParsePrinted(major, minor, patch, "/" + tail);
    var plain := SchemaVersions.PrintTriple(major, minor, patch);
    assert plain + "/" + tail == plain + ("/" + tail);
  }

  function KeyFor(e: EventDef): string {
    EventKey(e.namespace, e.name, e.version)
  }

  type Index = map<string, EventDef>

  /** The index of a walk: for a key met twice the later definition counts. */
  function IndexOf(defs: seq<EventDef>): Index {
    if defs == [] then map[] else IndexOf(defs[..|defs| - 1])[KeyFor(defs[|defs| - 1]) := defs[|defs| - 1]]
  }

  ghost predicate IndexKeyed(events: Index) {
    forall k :: k in events ==> KeyFor(events[k]) == k
  }

  predicate SlashFree(e: EventDef) {
    '/' !in e.name && '/' !in e.version
  }

  lemma {:induction false} IndexIsKeyed(defs: seq<EventDef>)
    ensures IndexKeyed(IndexOf(defs))
    ensures forall k :: k in IndexOf(defs) ==> IndexOf(defs)[k] in defs
    ensures forall e :: e in defs ==> KeyFor(e) in IndexOf(defs)
  {
    if defs != [] {
      IndexIsKeyed(defs[..|defs| - 1]);
      assert defs == defs[..|defs| - 1] + [defs[|defs| - 1]];
    }
  }

  /** Without two definitions of one event version, the index holds the whole walk. */
  lemma {:induction false} IndexHoldsTheWalk(defs: seq<EventDef>)
    requires forall e, f :: e in defs && f in defs && KeyOf(e) == KeyOf(f) && e.version == f.version ==> e == f
    requires forall e :: e in defs ==> SlashFree(e)
    ensures forall e :: e in IndexOf(defs).Values <==> e in defs
  {
    IndexIsKeyed(defs);
    forall e | e in defs ensures e in IndexOf(defs).Values {
      var f := IndexOf(defs)[KeyFor(e)];
      EventKeyIsInjective(e.namespace, e.name, e.version, f.namespace, f.name, f.version);
      assert f == e;
    }
  }

  // ------------------------------------------------------------ the resolver

  /** Empty fields do not filter. */
  datatype ListFilter = ListFilter(namespace: string, status: Option<EventStatus>, tags: seq<string>)

  predicate Matches(f: ListFilter, e: EventDef) {
    && (f.namespace == "" || e.namespace == f.namespace)
    && (f.status.None? || e.status == f.status.value)
    && (forall t :: t in f.tags ==> t in e.tags)
  }

  const EVERYTHING := ListFilter("", None, [])

  /** A sequence of exactly the matching definitions, in any order. */
  ghost predicate Lists(pool: seq<EventDef>, events: Index, filter: ListFilter) {
    forall e :: e in pool <==> e in events.Values && Matches(filter, e)
  }

  /** One latest matching definition per key. */
  ghost predicate LatestListing(events: Index, filter: ListFilter, out: seq<EventDef>) {
    exists pool :: Lists(pool, events, filter) && Deduplicated(pool, out)
  }

  /** A latest active version of the key, or none if there is none. */
  ghost predicate BestActive(events: Index, k: Key, r: Option<EventDef>) {
    exists pool :: Lists(pool, events, EVERYTHING) && Best(pool, k, true, r)
  }

  class Resolver {
    var events: Index

    ghost predicate Valid() reads this { IndexKeyed(events) }

    constructor ()
      ensures Valid() && events == map[]
    {
      events := map[];
    }

    /** A failed walk leaves the index as it was. */
    method Reload(walk: Result<seq<EventDef>, string>) returns (ok: bool)
      requires Valid()
      modifies this
      ensures Valid() && ok == walk.Ok?
      ensures events == if walk.Ok? then IndexOf(walk.value) else old(events)
    {
      if walk.Err? {
        return false;
      }
      var index: Index := map[];
      for i := 0 to |walk.value|
        invariant index == IndexOf(walk.value[..i])
      {
        assert walk.value[..i + 1][..i] == walk.value[..i];
        index := index[KeyFor(walk.value[i]) := walk.value[i]];
      }
      assert walk.value[..|walk.value|] == walk.value;
      IndexIsKeyed(walk.value);
      events := index;
      ok := true;
    }

    /** The matching definitions, each once, in whatever order the keys come. */
    method ListAllEvents(filter: ListFilter) returns (out: seq<EventDef>)
      requires Valid()
      ensures forall e :: e in out <==>
        && e in events.Values
        && (filter.namespace == "" || e.namespace == filter.namespace)
        && (filter.status.None? || e.status == filter.status.value)
        && forall t :: t in filter.tags ==> t in e.tags
      ensures Lists(out, events, filter)
      ensures forall i, j :: 0 <= i < j < |out| ==> out[i] != out[j]
    {
      out := [];
      var todo := events.Keys;
      while todo != {}
        invariant todo <= events.Keys
        invariant forall e :: e in out <==>
          KeyFor(e) in events && KeyFor(e) !in todo && events[KeyFor(e)] == e && Matches(filter, e)
        invariant forall i, j :: 0 <= i < j < |out| ==> out[i] != out[j]
        decreases |todo|
      {
        var k :| k in todo;
        var e := events[k];
        assert KeyFor(e) == k;
        assert e !in out;
        if Matches(filter, e) {
          out := out + [e];
        }
        todo := todo - {k};
      }
    }

    method ListEvents(filter: ListFilter) returns (out: seq<EventDef>)
      requires Valid()
      ensures LatestListing(events, filter, out)
    {
      var all := ListAllEvents(filter);
      out := DeduplicateByLatest(all);
    }

    method GetEvent(ns: string, name: string, version: string) returns (r: Option<EventDef>)
      requires Valid()
      ensures version != "" ==>
        r == (if EventKey(ns, name, version) in events then Some(events[EventKey(ns, name, version)]) else None)
      ensures version == "" ==> BestActive(events, Key(ns, name), r)
    {
      if version != "" {
        var k := EventKey(ns, name, version);
        return if k in events then Some(events[k]) else None;
      }
      r := None;
      var todo := events.Keys;
      ghost var pool: seq<EventDef> := [];
      while todo != {}
        invariant todo <= events.Keys
        invariant forall e :: e in pool ==> e in events.Values
        invariant forall k :: k in events && k !in todo ==> events[k] in pool
        invariant Best(pool, Key(ns, name), true, r)
        decreases |todo|
      {
        var k :| k in todo;
        var e := events[k];
        BestSnoc(pool, Key(ns, name), true, r, e);
        if e.namespace == ns && e.name == name && e.status.Active? && Parses(e) {
          if r.None? || Above(e, r.value) {
            r := Some(e);
          }
        }
        pool := pool + [e];
        todo := todo - {k};
      }
      assert Lists(pool, events, EVERYTHING);
    }
  }

  /** With slash-free names and versions, a lookup of a version finds the definition of
      exactly that event and version, if the index has one. */
  lemma LookupIsExact(events: Index, ns: string, name: string, version: string)
    requires IndexKeyed(events) && '/' !in name && '/' !in version
    requires forall k :: k in events ==> SlashFree(events[k])
    ensures EventKey(ns, name, version) in events <==>
      exists e :: e in events.Values && KeyOf(e) == Key(ns, name) && e.version == version
    ensures EventKey(ns, name, version) in events ==>
      var e := events[EventKey(ns, name, version)]; KeyOf(e) == Key(ns, name) && e.version == version
  {
    var k := EventKey(ns, name, version);
    if k in events {
      var e := events[k];
      EventKeyIsInjective(ns, name, version, e.namespace, e.name, e.version);
      assert e in events.Values;
    }
  }

  // -------------------------------------------------------------- agreement

  lemma BestHasSameMembers(p: seq<EventDef>, q: seq<EventDef>, k: Key, active: bool, r: Option<EventDef>)
    requires Best(p, k, active, r) && forall e :: e in p <==> e in q
    ensures Best(q, k, active, r)
  {
  }

  /** o is as recent as g. */
  ghost predicate Agree(g: EventDef, o: EventDef) {
    Parses(g) && Parses(o) && SchemaVersions.Compare(Ver(g), Ver(o)) == 0 && SchemaVersions.SameTriple(Ver(g), Ver(o))
  }

  /** An active-only listing that covers k has an event of k exactly when the best
      active version exists, and then one that compares equal to it. */
  lemma ListingAgrees(
    all: seq<EventDef>, k: Key, g: Option<EventDef>, filter: ListFilter, pool: seq<EventDef>, out: seq<EventDef>)
    requires Best(all, k, true, g)
    requires filter.status == Some(Active) && filter.namespace in {"", k.ns} && filter.tags == []
    requires forall e :: e in pool <==> e in all && Matches(filter, e)
    requires Deduplicated(pool, out)
    ensures g.Some? <==> Represented(out, k)
    ensures forall o :: o in out && KeyOf(o) == k ==> g.Some? && Agree(g.value, o)
  {
    assert forall e :: e in all && Eligible(e, k, true) <==> e in pool && Eligible(e, k, true);
    if g.Some? {
      assert g.value in pool && Parses(g.value);
    }
    forall o | o in out && KeyOf(o) == k ensures g.Some? && Agree(g.value, o) {
      assert o in pool && Eligible(o, k, true);
      assert g.Some?;
      assert Latest(pool, k, true, o);
      LatestAgree(all, pool, k, true, g.value, o);
    }
  }

  /** The same for the selection without a pin for k. */
  lemma SelectionAgrees(
    all: seq<EventDef>, k: Key, g: Option<EventDef>, defs: seq<EventDef>, pinning: map<string, string>,
    out: seq<EventDef>)
    requires Best(all, k, true, g) && forall e :: e in defs <==> e in all
    requires PinKey(k) !in pinning && Picks(defs, pinning, Order(defs), out)
    ensures g.Some? <==> Represented(out, k)
    ensures forall o :: o in out && KeyOf(o) == k ==> g.Some? && Agree(g.value, o)
  {
    OrderHasEachKeyOnce(defs);
    PicksAreTheChoices(defs, pinning, Order(defs), out);
    BestHasSameMembers(all, defs, k, true, g);
    if g.Some? {
      assert g.value in defs && KeyOf(g.value) == k;
      assert Represented(defs, k);
    }
    forall o | o in out && KeyOf(o) == k ensures g.Some? && Agree(g.value, o) {
      assert Choice(defs, pinning, k, Some(o));
      assert g.Some?;
      LatestAgree(defs, defs, k, true, g.value, o);
    }
  }

  /** The three selectors over one index, each with its own enumeration order: for
      every key all of them have an event or none has, at most one each, and the events
      compare equal. */
  lemma SelectorsAgree(
    events: Index, k: Key, got: Option<EventDef>,
    filter: ListFilter, listed: seq<EventDef>,
    defs: seq<EventDef>, pinning: map<string, string>, selected: seq<EventDef>)
    requires BestActive(events, k, got)
    requires filter.status == Some(Active) && filter.namespace in {"", k.ns} && filter.tags == []
    requires LatestListing(events, filter, listed)
    requires Lists(defs, events, EVERYTHING) && PinKey(k) !in pinning
    requires Picks(defs, pinning, Order(defs), selected)
    ensures got.Some? <==> Represented(listed, k)
    ensures got.Some? <==> Represented(selected, k)
    ensures DistinctKeys(listed) && DistinctKeys(selected)
    ensures forall o :: (o in listed || o in selected) && KeyOf(o) == k ==> got.Some? && Agree(got.value, o)
  {
    var all :| Lists(all, events, EVERYTHING) && Best(all, k, true, got);
    var pool :| Lists(pool, events, filter) && Deduplicated(pool, listed);
    ListingAgrees(all, k, got, filter, pool, listed);
    SelectionAgrees(all, k, got, defs, pinning, selected);
    OrderHasEachKeyOnce(defs);
    PicksAreTheChoices(defs, pinning, Order(defs), selected);
  }

  /** A version in the printed form of its own triple. */
  ghost predicate PlainVersion(e: EventDef) {
    Parses(e) && e.version == SchemaVersions.PrintTriple(Ver(e).major, Ver(e).minor, Ver(e).patch)
  }

  /** With plain versions the agreement is on the very same definition. */
  lemma PlainVersionsAgreeExactly(events: Index, a: EventDef, b: EventDef)
    requires IndexKeyed(events) && a in events.Values && b in events.Values
    requires KeyOf(a) == KeyOf(b) && Agree(a, b) && PlainVersion(a) && PlainVersion(b)
    ensures a == b
  {
    var i :| i in events && events[i] == a;
    var j :| j in events && events[j] == b;
    assert KeyFor(a) == KeyFor(b);
  }

  /** Without them it need not be: two versions that differ only in text after the last
      number tie, for every triple and every such text. */
  lemma TrailingTextTies(a: EventDef, b: EventDef, major: nat, minor: nat, patch: nat, x: string, y: string)
    requires major <= SchemaVersions.MAX_INT && minor <= SchemaVersions.MAX_INT && patch <= SchemaVersions.MAX_INT
    requires '-' !in x && '-' !in y && x != y
    requires (x != "" ==> !SchemaVersions.IsDigit(x[0])) && (y != "" ==> !SchemaVersions.IsDigit(y[0]))
    requires a.version == SchemaVersions.PrintTriple(major, minor, patch) + x
    requires b.version == SchemaVersions.PrintTriple(major, minor, patch) + y
    ensures Parses(a) && Parses(b) && !Above(a, b) && !Above(b, a) && a.version != b.version
  {
    SchemaVersions.ParsePrinted(major, minor, patch, x);
    SchemaVersions.ParsePrinted(major, minor, patch, y);
    var plain := SchemaVersions.PrintTriple(major, minor, patch);
    assert (plain + x)[|plain|..] == x && (plain + y)[|plain|..] == y;
  }

  /** For a key met more than once the index holds the last definition. */
  lemma {:induction false} IndexHoldsTheLast(defs: seq<EventDef>, i: nat)
    requires i < |defs| && forall j :: i < j < |defs| ==> KeyFor(defs[j]) != KeyFor(defs[i])
    ensures KeyFor(defs[i]) in IndexOf(defs) && IndexOf(defs)[KeyFor(defs[i])] == defs[i]
    decreases |defs|
  {
    var n := |defs| - 1;
    if i < n {
      IndexHoldsTheLast(defs[..n], i);
    }
  }
}
