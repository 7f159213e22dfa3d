/** The registry server's cache of event definitions by event name: filled lazily,
    cleared on publish, with the store read outside the lock. */
module EventCache {
  import opened Common
  import opened SpecModel

  /** One result of the store's ListEvents. */
  type Listing = seq<EventDef>

  type Index = map<string, EventDef>

  /** The index of a listing: for a name listed twice the later entry counts. */
  function IndexOf(events: Listing): Index {
    if events == [] then map[]
    else
      var last := events[|events| - 1];
      IndexOf(events[..|events| - 1])[last.eventName := last]
  }

  /** The cache fields of the server; each method is one section under its lock. */
  class Cache {
    var ready: bool
    var byName: Index

    constructor ()
      ensures !ready && byName == map[]
    {
      ready, byName := false, map[];
    }

    method Peek(name: string) returns (answer: Option<EventDef>, hit: bool)
      ensures hit == ready && answer == (if name in byName then Some(byName[name]) else None)
    {
      return if name in byName then Some(byName[name]) else None, ready;
    }

    /** The second half of a fill: another fill may have installed meanwhile. */
    method Install(events: Listing, name: string) returns (answer: Option<EventDef>)
      modifies this
      ensures ready && byName == (if old(ready) then old(byName) else IndexOf(events))
      ensures answer == (if name in byName then Some(byName[name]) else None)
    {
      if !ready {
        byName := map[];
        for i := 0 to |events|
          modifies this`byName
          invariant byName == IndexOf(events[..i])
        {
          assert events[..i + 1][..i] == events[..i];
          byName := byName[events[i].eventName := events[i]];
        }
        assert events[..|events|] == events;
        ready := true;
      }
      answer := if name in byName then Some(byName[name]) else None;
    }

    /** eventLookup by a single caller; `listed` is what the store would return. */
    method EventLookup(hooksEnabled: bool, listed: Option<Listing>, name: string) returns (answer: Option<EventDef>)
      modifies this
      ensures !hooksEnabled || (!old(ready) && listed.None?) ==>
        answer == None && ready == old(ready) && byName == old(byName)
      ensures hooksEnabled && (old(ready) || listed.Some?) ==>
        ready && answer == if name in byName then Some(byName[name]) else None
      ensures hooksEnabled && !old(ready) && listed.Some? ==> byName == IndexOf(listed.value)
      ensures old(ready) ==> byName == old(byName)
    {
      if !hooksEnabled {
        return None;
      }
      var cached, hit := Peek(name);
      if hit {
        return cached;
      }
      if listed.None? {
        return None;
      }
      answer := Install(listed.value, name);
    }

    method Invalidate()
      modifies this
      ensures !ready && byName == map[]
    {
      ready, byName := false, map[];
    }

    /** PublishEvent; `written` is whether the store took the event. A failed write
        leaves the cache alone. */
    method PublishEvent(written: bool)
      modifies this
      ensures if written then !ready && byName == map[] else ready == old(ready) && byName == old(byName)
    {
      if written {
        Invalidate();
      }
    }
  }

  /** An index answers with the last listed definition of that name. */
  lemma {:induction false} IndexAnswersLast(events: Listing, name: string)
    ensures name in IndexOf(events) <==> exists i :: 0 <= i < |events| && events[i].eventName == name
    ensures name in IndexOf(events) ==>
      exists i :: 0 <= i < |events| && events[i] == IndexOf(events)[name] && events[i].eventName == name
        && forall j :: i < j < |events| ==> events[j].eventName != name
  {
    if events != [] {
      var front, last := events[..|events| - 1], events[|events| - 1];
      IndexAnswersLast(front, name);
      if last.eventName == name {
        assert events[|events| - 1] == IndexOf(events)[name];
      } else if name in IndexOf(front) {
        var i :| 0 <= i < |front| && front[i] == IndexOf(front)[name] && front[i].eventName == name
          && forall j :: i < j < |front| ==> front[j].eventName != name;
        assert events[i] == IndexOf(events)[name] && events[i].eventName == name;
        assert forall j :: i < j < |events| ==> events[j].eventName != name;
      } else {
        assert forall i :: 0 <= i < |front| ==> front[i].eventName == events[i].eventName;
      }
    }
  }

  // ---------------------------------------------------------------- interleavings

  /** A lookup that missed, and what it has read from the store since. */
  datatype Fill = Missed | Read(version: nat)

  /** `versions` is the history of what ListEvents would return; its last element is
      the store's present. `source` is the version the cache was filled from. A
      publisher between its write and its invalidation is in `writers`, with the
      version it wrote. */
  datatype State = State(
    versions: seq<Listing>,
    ready: bool,
    byName: Index,
    source: nat,
    fills: map<nat, Fill>,
    writers: map<nat, nat>)
  {
    predicate Valid() { |versions| > 0 }
    function Present(): nat requires Valid() { |versions| - 1 }
  }

  function Start(store: Listing): State {
    State([store], false, map[], 0, map[], map[])
  }

  datatype Step =
    | Miss(t: nat)
    | ReadStore(t: nat)
    | ReadFails(t: nat)
    | Install(t: nat)
    | PublishWrite(t: nat, store: Listing)
    | PublishInvalidate(t: nat)
    | DirectWrite(store: Listing)

  predicate Enabled(s: State, step: Step) {
    && s.Valid()
    && match step
       case Miss(t) => t !in s.fills && !s.ready
       case ReadStore(t) => t in s.fills && s.fills[t].Missed?
       case ReadFails(t) => t in s.fills && s.fills[t].Missed?
       case Install(t) => t in s.fills && s.fills[t].Read? && s.fills[t].version < |s.versions|
       case PublishWrite(t, _) => t !in s.writers
       case PublishInvalidate(t) => t in s.writers
       case DirectWrite(_) => true
  }

  function Apply(s: State, step: Step): (s': State)
    requires Enabled(s, step)
    ensures s'.Valid()
  {
    match step
    case Miss(t) => s.(fills := s.fills[t := Missed])
    case ReadStore(t) => s.(fills := s.fills[t := Read(s.Present())])
    case ReadFails(t) => s.(fills := s.fills - {t})
    case Install(t) =>
      var v := s.fills[t].version;
      if s.ready then s.(fills := s.fills - {t})
      else s.(fills := s.fills - {t}, ready := true, byName := IndexOf(s.versions[v]), source := v)
    case PublishWrite(t, store) => s.(versions := s.versions + [store], writers := s.writers[t := |s.versions|])
    case PublishInvalidate(t) => s.(ready := false, byName := map[], writers := s.writers - {t})
    case DirectWrite(store) => s.(versions := s.versions + [store])
  }

  predicate Runs(s: State, steps: seq<Step>)
    decreases |steps|
  {
    steps == [] || (Enabled(s, steps[0]) && Runs(Apply(s, steps[0]), steps[1..]))
  }

  function Exec(s: State, steps: seq<Step>): State
    requires Runs(s, steps)
    decreases |steps|
  {
    if steps == [] then s else Exec(Apply(s, steps[0]), steps[1..])
  }

  // ------------------------------------------------------------ one snapshot

  /** A ready cache is the index of one past listing. */
  ghost predicate Snapshot(s: State) {
    && s.Valid()
    && (forall t :: t in s.fills && s.fills[t].Read? ==> s.fills[t].version <= s.Present())
    && (s.ready ==> s.source <= s.Present() && s.byName == IndexOf(s.versions[s.source]))
  }

  lemma {:induction false} CacheIsOneSnapshot(s: State, steps: seq<Step>)
    requires Snapshot(s) && Runs(s, steps)
    ensures Snapshot(Exec(s, steps))
    decreases |steps|
  {
    if steps != [] {
      CacheIsOneSnapshot(Apply(s, steps[0]), steps[1..]);
    }
  }

  // --------------------------------------------------------------- freshness

  /** The publisher that wrote version w has yet to invalidate. */
  ghost predicate Pending(s: State, w: nat) {
    exists t :: t in s.writers && s.writers[t] == w
  }

  /** Every version newer than v belongs to a publisher that has yet to invalidate. */
  ghost predicate Covered(s: State, v: nat)
    requires s.Valid()
  {
    forall w :: v < w <= s.Present() ==> Pending(s, w)
  }

  ghost predicate Fresh(s: State) {
    && Snapshot(s)
    && (forall t :: t in s.writers ==> s.writers[t] <= s.Present())
    && (forall t, u :: t in s.writers && u in s.writers && s.writers[t] == s.writers[u] ==> t == u)
    && (s.ready ==> Covered(s, s.source))
    && (forall t :: t in s.fills && s.fills[t].Read? ==> Covered(s, s.fills[t].version))
  }

  /** No write bypasses PublishEvent, and no publisher's invalidation falls between
      the read and the install of a fill that missed its write. */
  predicate Disciplined(s: State, step: Step) {
    && !step.DirectWrite?
    && (step.PublishInvalidate? && step.t in s.writers ==>
          forall f :: f in s.fills && s.fills[f].Read? ==> s.writers[step.t] <= s.fills[f].version)
  }

  predicate DisciplinedRun(s: State, steps: seq<Step>)
    requires Runs(s, steps)
    decreases |steps|
  {
    steps == [] || (Disciplined(s, steps[0]) && DisciplinedRun(Apply(s, steps[0]), steps[1..]))
  }

  lemma CoverAfterWrite(s: State, t: nat, store: Listing, v: nat)
    requires s.Valid() && t !in s.writers && Covered(s, v)
    ensures Covered(Apply(s, PublishWrite(t, store)), v)
  {
    var s' := Apply(s, PublishWrite(t, store));
    forall w | v < w <= s'.Present() ensures Pending(s', w) {
      if w == s'.Present() {
        assert t in s'.writers && s'.writers[t] == w;
      } else {
        assert Pending(s, w);
        var u :| u in s.writers && s.writers[u] == w;
        assert u in s'.writers && s'.writers[u] == w;
      }
    }
  }

  lemma CoverAfterInvalidate(s: State, t: nat, v: nat)
    requires s.Valid() && t in s.writers && Covered(s, v) && s.writers[t] <= v
    ensures Covered(Apply(s, PublishInvalidate(t)), v)
  {
    var s' := Apply(s, PublishInvalidate(t));
    forall w | v < w <= s'.Present() ensures Pending(s', w) {
      assert Pending(s, w);
      var u :| u in s.writers && s.writers[u] == w;
      assert u in s'.writers && s'.writers[u] == w;
    }
  }

  lemma StepKeepsFresh(s: State, step: Step)
    requires Fresh(s) && Enabled(s, step) && Disciplined(s, step)
    ensures Fresh(Apply(s, step))
  {
    var s' := Apply(s, step);
    if step.PublishWrite? {
      if s.ready {
        CoverAfterWrite(s, step.t, step.store, s.source);
      }
      forall f | f in s.fills && s.fills[f].Read? ensures Covered(s', s.fills[f].version) {
        CoverAfterWrite(s, step.t, step.store, s.fills[f].version);
      }
    } else if step.PublishInvalidate? {
      forall f | f in s.fills && s.fills[f].Read? ensures Covered(s', s.fills[f].version) {
        CoverAfterInvalidate(s, step.t, s.fills[f].version);
      }
    } else {
      assert forall w :: Pending(s, w) ==> Pending(s', w);
    }
  }

  lemma {:induction false} RunKeepsFresh(s: State, steps: seq<Step>)
    requires Fresh(s) && Runs(s, steps) && DisciplinedRun(s, steps)
    ensures Fresh(Exec(s, steps))
    decreases |steps|
  {
    if steps != [] {
      StepKeepsFresh(s, steps[0]);
      RunKeepsFresh(Apply(s, steps[0]), steps[1..]);
    }
  }

  /** Once all publishes of a disciplined run have completed, a ready cache answers
      from the store's present. */
  lemma QuiescentCacheIsCurrent(store: Listing, steps: seq<Step>)
    requires Runs(Start(store), steps) && DisciplinedRun(Start(store), steps)
    ensures var s := Exec(Start(store), steps);
      s.Valid() && (s.ready && s.writers == map[] ==> s.byName == IndexOf(s.versions[s.Present()]))
  {
    RunKeepsFresh(Start(store), steps);
    var s := Exec(Start(store), steps);
    assert s.ready && s.source < s.Present() ==> Pending(s, s.Present());
  }

  // --------------------------------------- a simpler condition that implies it

  /** Writes happen only while no fill sits between its store read and its install. */
  predicate QuietWrite(s: State, step: Step) {
    && !step.DirectWrite?
    && (step.PublishWrite? ==> forall f :: f in s.fills ==> !s.fills[f].Read?)
  }

  predicate QuietRun(s: State, steps: seq<Step>)
    requires Runs(s, steps)
    decreases |steps|
  {
    steps == [] || (QuietWrite(s, steps[0]) && QuietRun(Apply(s, steps[0]), steps[1..]))
  }

  lemma {:induction false} QuietRunsAreDisciplined(s: State, steps: seq<Step>)
    requires s.Valid() && Runs(s, steps) && QuietRun(s, steps)
    requires forall f :: f in s.fills && s.fills[f].Read? ==> s.fills[f].version == s.Present()
    requires forall t :: t in s.writers ==> s.writers[t] <= s.Present()
    ensures DisciplinedRun(s, steps)
    decreases |steps|
  {
    if steps != [] {
      QuietRunsAreDisciplined(Apply(s, steps[0]), steps[1..]);
    }
  }

  /** All writes through PublishEvent, none between a fill's read and its install:
      once the publishes have completed, a ready cache answers from the present. */
  lemma QuietCacheIsCurrent(store: Listing, steps: seq<Step>)
    requires Runs(Start(store), steps) && QuietRun(Start(store), steps)
    ensures var s := Exec(Start(store), steps);
      s.Valid() && (s.ready && s.writers == map[] ==> s.byName == IndexOf(s.versions[s.Present()]))
  {
    QuietRunsAreDisciplined(Start(store), steps);
    QuiescentCacheIsCurrent(store, steps);
  }

  // ------------------------------------------------ neither condition can go

  /** One undisciplined invalidation suffices: if it is the only one pending and a
      fill holds an older listing, installing that fill leaves a ready cache, nothing
      pending, and answers from the past. */
  lemma {:induction false} LateInstallIsStale(s: State, t: nat, f: nat)
    requires Snapshot(s) && s.writers == map[t := s.Present()]
    requires f in s.fills && s.fills[f].Read? && s.fills[f].version < s.Present()
    ensures Runs(s, [PublishInvalidate(t), Install(f)])
    ensures var s' := Exec(s, [PublishInvalidate(t), Install(f)]);
      && s'.ready && s'.writers == map[] && s'.versions == s.versions
      && s'.byName == IndexOf(s.versions[s.fills[f].version])
  {
    var one := [Install(f)];
    var s1 := Apply(s, PublishInvalidate(t));
    OneStep(s1, Install(f));
    var steps := [PublishInvalidate(t), Install(f)];
    assert steps[1..] == one;
  }

  lemma OneStep(s: State, step: Step)
    requires Enabled(s, step)
    ensures Runs(s, [step]) && Exec(s, [step]) == Apply(s, step)
  {
    var one := [step];
    assert one[1..] == [];
    assert Exec(Apply(s, step), []) == Apply(s, step);
  }

  /** Such a state is reached: whatever the store lists first and is changed to, a fill
      overtaken by one publish leaves the first listing behind, with nothing pending. */
  lemma {:induction false} OvertakenFillStays(a: Listing, b: Listing)
    ensures var steps := [Miss(0), ReadStore(0), PublishWrite(1, b), PublishInvalidate(1), Install(0)];
      && Runs(Start(a), steps)
      && var s := Exec(Start(a), steps);
         s.ready && s.writers == map[] && s.versions == [a, b] && s.byName == IndexOf(a)
  {
    var s1 := Apply(Start(a), Miss(0));
    var s2 := Apply(s1, ReadStore(0));
    var s3 := Apply(s2, PublishWrite(1, b));
    assert s3.versions == [a, b] && s3.writers == map[1 := 1] && s3.fills == map[0 := Read(0)];
    LateInstallIsStale(s3, 1, 0);
    var rest := [PublishInvalidate(1), Install(0)];
    var three := [PublishWrite(1, b)] + rest;
    var four := [ReadStore(0)] + three;
    var five := [Miss(0)] + four;
    assert three[1..] == rest && four[1..] == three && five[1..] == four;
    assert five == [Miss(0), ReadStore(0), PublishWrite(1, b), PublishInvalidate(1), Install(0)];
    assert Runs(s2, three) && Exec(s2, three) == Exec(s3, rest);
    assert Runs(s1, four) && Exec(s1, four) == Exec(s2, three);
  }

  /** A ready cache, stale or not, stays as it is until the next publish invalidates
      it; a write that bypasses PublishEvent is invisible to it. */
  lemma {:induction false} StaleUntilNextPublish(s: State, steps: seq<Step>)
    requires Runs(s, steps) && s.ready && forall i :: 0 <= i < |steps| ==> !steps[i].PublishInvalidate?
    ensures Exec(s, steps).ready && Exec(s, steps).byName == s.byName
    decreases |steps|
  {
    if steps != [] {
      assert !steps[0].PublishInvalidate?;
      StaleUntilNextPublish(Apply(s, steps[0]), steps[1..]);
    }
  }

  /** The exact condition: after a fill's install and with no publish left pending or
      completed since, the cache is that of the store's present version if and only if
      the fill had read the version that was present at its install and no write has
      bypassed PublishEvent since. */
  lemma {:induction false} FreshExactlyWhen(s: State, f: nat, rest: seq<Step>)
    requires Snapshot(s) && !s.ready && f in s.fills && s.fills[f].Read?
    requires Runs(Apply(s, Install(f)), rest)
    requires forall i :: 0 <= i < |rest| ==> !rest[i].PublishInvalidate?
    requires Exec(Apply(s, Install(f)), rest).writers == map[]
    ensures var s' := Exec(Apply(s, Install(f)), rest);
      && s'.Valid() && s'.ready
      && (s'.source == s'.Present() <==>
            s.fills[f].version == s.Present() && forall i :: 0 <= i < |rest| ==> !rest[i].DirectWrite?)
  {
    OnlyDirectWrites(Apply(s, Install(f)), rest);
  }

  function DirectWrites(steps: seq<Step>): (n: nat)
    ensures n == 0 <==> forall i :: 0 <= i < |steps| ==> !steps[i].DirectWrite?
  {
    if steps == [] then 0 else (if steps[0].DirectWrite? then 1 else 0) + DirectWrites(steps[1..])
  }

  lemma {:induction false} OnlyDirectWrites(s: State, steps: seq<Step>)
    requires s.Valid() && s.ready && Runs(s, steps)
    requires forall i :: 0 <= i < |steps| ==> !steps[i].PublishInvalidate?
    requires Exec(s, steps).writers == map[]
    ensures s.writers == map[]
    ensures var s' := Exec(s, steps);
      s'.ready && s'.source == s.source && |s'.versions| == |s.versions| + DirectWrites(steps)
    decreases |steps|
  {
    if steps != [] {
      assert !steps[0].PublishInvalidate?;
      var s1 := Apply(s, steps[0]);
      assert steps[0].PublishWrite? ==> steps[0].t in s1.writers;
      OnlyDirectWrites(s1, steps[1..]);
    }
  }
}
