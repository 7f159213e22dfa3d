/** The concurrent dispatch to every provider, the hooks around each call and the
    aggregation of the outcomes. */
module FanOut {
  import opened Common
  import opened BeforeHooks

  datatype DeliveryState = Delivered | Failed

  datatype ProviderResult = ProviderResult(provider: string, state: DeliveryState, error: Option<Error>)

  /** What every goroutine of one dispatch shares: the context and envelope the Before
      hooks left, the providers with the outcome of the call to each, and how many
      hooks there are. */
  datatype Job = Job(hc: HookContext, env: Envelope, names: seq<string>, errs: seq<Option<Error>>, hooks: nat)
  {
    predicate Valid() { |names| == |errs| }
    function Hc(p: nat): HookContext requires p < |names| { hc.(provider := names[p]) }
  }

  datatype Event =
    | Called(p: nat, env: Envelope)
    | After(p: nat, hook: nat, hc: HookContext)
    | Error(p: nat, hook: nat, hc: HookContext, error: BeforeHooks.Error)
    | Finally(p: nat, hook: nat, hc: HookContext, outcome: Option<BeforeHooks.Error>)

  /** Where a goroutine stands; in a hook loop, how many hooks are left to call. */
  datatype Pc = Calling | Storing | Notifying(left: nat) | Finishing(left: nat) | Done

  datatype State = State(pcs: seq<Pc>, results: seq<Option<ProviderResult>>, trace: seq<Event>)

  function Start(job: Job): State {
    State(seq(|job.names|, _ => Calling), seq(|job.names|, _ => None), [])
  }

  function Notify(job: Job, p: nat, hook: nat): Event
    requires job.Valid() && p < |job.names|
  {
    if job.errs[p].Some? then Error(p, hook, job.Hc(p), job.errs[p].value) else After(p, hook, job.Hc(p))
  }

  function Next(job: Job, pc: Pc): Pc {
    match pc
    case Calling => Storing
    case Storing => Notifying(job.hooks)
    case Notifying(left) => if left == 0 then Finishing(job.hooks) else Notifying(left - 1)
    case Finishing(left) => if left == 0 then Done else Finishing(left - 1)
    case Done => Done
  }

  function Emitted(job: Job, p: nat, pc: Pc): seq<Event>
    requires job.Valid() && p < |job.names|
  {
    match pc
    case Calling => [Called(p, job.env)]
    case Notifying(left) => if left == 0 then [] else [Notify(job, p, left - 1)]
    case Finishing(left) => if left == 0 then [] else [Finally(p, left - 1, job.Hc(p), job.errs[p])]
    case _ => []
  }

  function Outcome(job: Job, p: nat): ProviderResult
    requires job.Valid() && p < |job.names|
  {
    ProviderResult(job.names[p], if job.errs[p].Some? then Failed else Delivered, job.errs[p])
  }

  predicate Enabled(job: Job, s: State, p: nat) {
    job.Valid() && |s.pcs| == |s.results| == |job.names| && p < |s.pcs| && s.pcs[p] != Done
  }

  /** One step of provider p's goroutine. */
  function Step(job: Job, s: State, p: nat): State
    requires Enabled(job, s, p)
  {
    State(
      s.pcs[p := Next(job, s.pcs[p])],
      if s.pcs[p] == Storing then s.results[p := Some(Outcome(job, p))] else s.results,
      s.trace + Emitted(job, p, s.pcs[p]))
  }

  predicate Complete(s: State) {
    forall p :: 0 <= p < |s.pcs| ==> s.pcs[p] == Done
  }

  // ----------------------------------------------------------- one provider

  function Project(trace: seq<Event>, p: nat): seq<Event> {
    if trace == [] then []
    else
      var last := trace[|trace| - 1];
      Project(trace[..|trace| - 1], p) + if last.p == p then [last] else []
  }

  /** The call, then every After or every Error from the last hook to the first, then
      every Finally from the last hook to the first. */
  function Canonical(job: Job, p: nat): seq<Event>
    requires job.Valid() && p < |job.names|
  {
    [Called(p, job.env)]
    + seq(job.hooks, k requires 0 <= k < job.hooks => Notify(job, p, job.hooks - 1 - k))
    + seq(job.hooks, k requires 0 <= k < job.hooks => Finally(p, job.hooks - 1 - k, job.Hc(p), job.errs[p]))
  }

  function Progress(job: Job, pc: Pc): int {
    match pc
    case Calling => 0
    case Storing => 1
    case Notifying(left) => 1 + job.hooks - left
    case Finishing(left) => 1 + 2 * job.hooks - left
    case Done => 1 + 2 * job.hooks
  }

  predicate ValidPc(job: Job, pc: Pc) {
    match pc
    case Notifying(left) => left <= job.hooks
    case Finishing(left) => left <= job.hooks
    case _ => true
  }

  /** A step emits exactly the next event of the canonical trace, or none. */
  lemma EmitsTheNext(job: Job, p: nat, pc: Pc)
    requires job.Valid() && p < |job.names| && ValidPc(job, pc) && pc != Done
    ensures ValidPc(job, Next(job, pc))
    ensures 0 <= Progress(job, pc) <= Progress(job, Next(job, pc)) <= |Canonical(job, p)| == Progress(job, Done)
    ensures Canonical(job, p)[..Progress(job, Next(job, pc))]
      == Canonical(job, p)[..Progress(job, pc)] + Emitted(job, p, pc)
  {
    var all, k := Canonical(job, p), Progress(job, pc);
    assert Emitted(job, p, pc) != [] ==> k < |all| && all[k] == Emitted(job, p, pc)[0];
  }

  lemma {:induction false} ProjectJoins(a: seq<Event>, b: seq<Event>, p: nat)
    ensures Project(a + b, p) == Project(a, p) + Project(b, p)
    decreases |b|
  {
    if b == [] {
      assert a + b == a;
    } else {
      var n := |b| - 1;
      assert (a + b)[..|a + b| - 1] == a + b[..n];
      ProjectJoins(a, b[..n], p);
    }
  }

  lemma ProjectEmitted(job: Job, q: nat, pc: Pc, p: nat)
    requires job.Valid() && q < |job.names|
    ensures Project(Emitted(job, q, pc), p) == if p == q then Emitted(job, q, pc) else []
  {
    var e := Emitted(job, q, pc);
    if e != [] {
      assert e[..0] == [] && e == [e[0]] && e[0].p == q;
    }
  }

  // -------------------------------------------------------------- invariant

  ghost predicate Follows(job: Job, s: State, p: nat)
    requires job.Valid() && |s.pcs| == |s.results| == |job.names| && p < |s.pcs|
  {
    && ValidPc(job, s.pcs[p])
    && 0 <= Progress(job, s.pcs[p]) <= |Canonical(job, p)|
    && Project(s.trace, p) == Canonical(job, p)[..Progress(job, s.pcs[p])]
    && s.results[p] == if s.pcs[p] in {Calling, Storing} then None else Some(Outcome(job, p))
  }

  ghost predicate Inv(job: Job, s: State) {
    && job.Valid() && |s.pcs| == |s.results| == |job.names|
    && (forall e :: e in s.trace ==> e.p < |job.names|)
    && forall p :: 0 <= p < |s.pcs| ==> Follows(job, s, p)
  }

  lemma StepKeepsFollows(job: Job, s: State, q: nat, p: nat)
    requires Enabled(job, s, q) && p < |s.pcs| && Follows(job, s, p)
    ensures Follows(job, Step(job, s, q), p)
  {
    ProjectJoins(s.trace, Emitted(job, q, s.pcs[q]), p);
    ProjectEmitted(job, q, s.pcs[q], p);
    if p == q {
      EmitsTheNext(job, p, s.pcs[p]);
    }
  }

  lemma StepKeepsInv(job: Job, s: State, q: nat)
    requires Inv(job, s) && Enabled(job, s, q)
    ensures Inv(job, Step(job, s, q))
  {
    forall p | 0 <= p < |s.pcs| ensures Follows(job, Step(job, s, q), p) {
      StepKeepsFollows(job, s, q, p);
    }
  }

  // --------------------------------------------------------------- schedules

  predicate Runs(job: Job, s: State, schedule: seq<nat>)
    decreases |schedule|
  {
    schedule == [] || (Enabled(job, s, schedule[0]) && Runs(job, Step(job, s, schedule[0]), schedule[1..]))
  }

  function Exec(job: Job, s: State, schedule: seq<nat>): State
    requires Runs(job, s, schedule)
    decreases |schedule|
  {
    if schedule == [] then s else Exec(job, Step(job, s, schedule[0]), schedule[1..])
  }

  lemma {:induction false} RunKeepsInv(job: Job, s: State, schedule: seq<nat>)
    requires Inv(job, s) && Runs(job, s, schedule)
    ensures Inv(job, Exec(job, s, schedule))
    decreases |schedule|
  {
    if schedule != [] {
      StepKeepsInv(job, s, schedule[0]);
      RunKeepsInv(job, Step(job, s, schedule[0]), schedule[1..]);
    }
  }

  /** What a provider is to see in full: its call; then, from the last hook to the first,
      every Error with the call's error if there was one and every After if not; then
      every Finally, in the same order. */
  ghost predicate Spelled(
    env: Envelope, hc: HookContext, hooks: nat, p: nat, err: Option<BeforeHooks.Error>, seen: seq<Event>)
  {
    && |seen| == 1 + 2 * hooks
    && seen[0] == Called(p, env)
    && (forall i :: 1 <= i <= hooks ==>
          seen[i] == if err.Some? then Error(p, hooks - i, hc, err.value) else After(p, hooks - i, hc))
    && (forall i :: 1 + hooks <= i <= 2 * hooks ==> seen[i] == Finally(p, 2 * hooks - i, hc, err))
  }

  lemma CanonicalIsSpelled(job: Job, p: nat)
    requires job.Valid() && p < |job.names|
    ensures Spelled(job.env, job.hc.(provider := job.names[p]), job.hooks, p, job.errs[p], Canonical(job, p))
  {
    var n, all := job.hooks, Canonical(job, p);
    var notices := seq(n, k requires 0 <= k < n => Notify(job, p, n - 1 - k));
    var finals := seq(n, k requires 0 <= k < n => Finally(p, n - 1 - k, job.Hc(p), job.errs[p]));
    assert all == [Called(p, job.env)] + notices + finals;
    forall i | 1 <= i <= n ensures all[i] == Notify(job, p, n - i) {
      assert all[i] == notices[i - 1];
    }
    forall i | 1 + n <= i <= 2 * n ensures all[i] == Finally(p, 2 * n - i, job.Hc(p), job.errs[p]) {
      assert all[i] == finals[i - 1 - n];
    }
  }

  /** What a provider has seen so far is the beginning of what it is to see. */
  ghost predicate OnTheWay(job: Job, p: nat, seen: seq<Event>)
    requires job.Valid() && p < |job.names|
  {
    exists full :: seen <= full
      && Spelled(job.env, job.hc.(provider := job.names[p]), job.hooks, p, job.errs[p], full)
  }

  /** It has seen all of it, and its outcome is stored. */
  ghost predicate Finished(job: Job, s: State, p: nat)
    requires job.Valid() && p < |job.names| == |s.results|
  {
    && Spelled(job.env, job.hc.(provider := job.names[p]), job.hooks, p, job.errs[p], Project(s.trace, p))
    && s.results[p] == Some(ProviderResult(
         job.names[p], if job.errs[p].Some? then Failed else Delivered, job.errs[p]))
  }

  /** Every interleaving: at each moment each provider has seen a prefix of its
      canonical trace; at the end exactly that trace, and the results are the same
      whatever the schedule was. */
  lemma ScheduleIndependent(job: Job, schedule: seq<nat>)
    requires job.Valid() && Runs(job, Start(job), schedule)
    ensures var s := Exec(job, Start(job), schedule);
      && |s.pcs| == |s.results| == |job.names|
      && (forall p :: 0 <= p < |job.names| ==> OnTheWay(job, p, Project(s.trace, p)))
      && (Complete(s) ==> forall p :: 0 <= p < |job.names| ==> Finished(job, s, p))
  {
    RunKeepsInv(job, Start(job), schedule);
    var s := Exec(job, Start(job), schedule);
    forall p | 0 <= p < |job.names|
      ensures OnTheWay(job, p, Project(s.trace, p)) && (s.pcs[p] == Done ==> Finished(job, s, p))
    {
      assert Follows(job, s, p);
      CanonicalIsSpelled(job, p);
    }
  }

  /** A provider's part of a trace holds exactly its events. */
  lemma {:induction false} ProjectMembers(trace: seq<Event>, p: nat)
    ensures forall e :: e in Project(trace, p) <==> e in trace && e.p == p
    decreases |trace|
  {
    if trace != [] {
      ProjectMembers(trace[..|trace| - 1], p);
      assert trace == trace[..|trace| - 1] + [trace[|trace| - 1]];
    }
  }

  /** After an error no After is called on a provider's behalf, and without one no Error;
      each hook hears of it once in its own way and once at the end. */
  lemma OneKindOfNotice(
    env: Envelope, hc: HookContext, hooks: nat, p: nat, err: Option<BeforeHooks.Error>, trace: seq<Event>)
    requires Spelled(env, hc, hooks, p, err, Project(trace, p))
    ensures err.Some? ==> forall e :: e in trace && e.p == p ==> !e.After?
    ensures err.None? ==> forall e :: e in trace && e.p == p ==> !e.Error?
  {
    ProjectMembers(trace, p);
    var seen := Project(trace, p);
    forall e | e in seen ensures if err.Some? then !e.After? else !e.Error? {
      var i :| 0 <= i < |seen| && seen[i] == e;
      assert i == 0 || 1 <= i <= hooks || 1 + hooks <= i <= 2 * hooks;
    }
  }

  lemma EveryHookHears(
    env: Envelope, hc: HookContext, hooks: nat, p: nat, err: Option<BeforeHooks.Error>, trace: seq<Event>, h: nat)
    requires Spelled(env, hc, hooks, p, err, Project(trace, p)) && h < hooks
    ensures err.Some? ==> Error(p, h, hc, err.value) in trace
    ensures err.None? ==> After(p, h, hc) in trace
    ensures Finally(p, h, hc, err) in trace
  {
    ProjectMembers(trace, p);
    var seen := Project(trace, p);
    assert seen[hooks - h] in seen && seen[2 * hooks - h] in seen;
  }

  /** Chain.After, unlike the client's own loop, stops at the first hook that reports
      an error: it reaches every hook exactly when only the first one may fail. */
  method ChainAfter(errs: seq<Option<BeforeHooks.Error>>) returns (calls: seq<nat>, err: Option<BeforeHooks.Error>)
    ensures |calls| <= |errs| && forall k :: 0 <= k < |calls| ==> calls[k] == |errs| - 1 - k
    ensures err == if calls == [] then None else errs[calls[|calls| - 1]]
    ensures err.None? ==> |calls| == |errs|
    ensures |calls| == |errs| <==> forall j :: 1 <= j < |errs| ==> errs[j].None?
  {
    calls := [];
    for i := |errs| downto 0
      invariant |calls| == |errs| - i && forall k :: 0 <= k < |calls| ==> calls[k] == |errs| - 1 - k
      invariant forall j :: i <= j < |errs| ==> errs[j].None?
    {
      calls := calls + [i];
      if errs[i].Some? {
        return calls, errs[i];
      }
    }
    err := None;
  }

  // -------------------------------------------------------------- work left

  function Left(job: Job, pc: Pc): nat {
    match pc
    case Calling => 2 * job.hooks + 4
    case Storing => 2 * job.hooks + 3
    case Notifying(left) => job.hooks + 2 + left
    case Finishing(left) => 1 + left
    case Done => 0
  }

  function Work(job: Job, pcs: seq<Pc>): nat {
    if pcs == [] then 0 else Work(job, pcs[..|pcs| - 1]) + Left(job, pcs[|pcs| - 1])
  }

  lemma {:induction false} WorkDrops(job: Job, pcs: seq<Pc>, p: nat)
    requires p < |pcs| && pcs[p] != Done
    ensures Work(job, pcs[p := Next(job, pcs[p])]) == Work(job, pcs) - 1
    decreases |pcs|
  {
    var n := |pcs| - 1;
    var pcs' := pcs[p := Next(job, pcs[p])];
    if p < n {
      assert pcs'[..n] == pcs[..n][p := Next(job, pcs[p])];
      WorkDrops(job, pcs[..n], p);
    } else {
      assert pcs'[..n] == pcs[..n];
    }
  }

  /** All goroutines run to their end, each step taken by any of them. */
  method RunAll(job: Job) returns (s: State)
    requires job.Valid()
    ensures Inv(job, s) && Complete(s)
  {
    s := Start(job);
    while exists p :: 0 <= p < |s.pcs| && s.pcs[p] != Done
      invariant Inv(job, s)
      decreases Work(job, s.pcs)
    {
      var p :| 0 <= p < |s.pcs| && s.pcs[p] != Done;
      StepKeepsInv(job, s, p);
      WorkDrops(job, s.pcs, p);
      s := Step(job, s, p);
    }
  }

  // ------------------------------------------------------------- aggregation

  datatype DispatchResult = DispatchResult(
    success: seq<ProviderResult>,
    failed: seq<ProviderResult>,
    partialSuccess: bool)

  const NOTHING := DispatchResult([], [], false)

  /** `all` is `a` and `b` shuffled together, each in its own order. */
  ghost predicate Shuffle(all: seq<ProviderResult>, a: seq<ProviderResult>, b: seq<ProviderResult>)
    decreases |all|
  {
    if all == [] then a == [] && b == []
    else
      var front, last := all[..|all| - 1], all[|all| - 1];
      || (a != [] && a[|a| - 1] == last && Shuffle(front, a[..|a| - 1], b))
      || (b != [] && b[|b| - 1] == last && Shuffle(front, a, b[..|b| - 1]))
  }

  /** The order-preserving split of the results by error. */
  ghost predicate Splits(all: seq<ProviderResult>, a: seq<ProviderResult>, b: seq<ProviderResult>) {
    && Shuffle(all, a, b)
    && (forall i :: 0 <= i < |a| ==> a[i].error.None?)
    && (forall i :: 0 <= i < |b| ==> b[i].error.Some?)
  }

  method Aggregate(results: seq<ProviderResult>) returns (r: DispatchResult)
    ensures Splits(results, r.success, r.failed) && r.partialSuccess == (r.success != [])
  {
    var success, failed := [], [];
    for i := 0 to |results|
      invariant Splits(results[..i], success, failed)
    {
      ShuffleSnoc(results[..i], success, failed, results[i]);
      assert results[..i + 1] == results[..i] + [results[i]];
      if results[i].error.None? {
        success := success + [results[i]];
      } else {
        failed := failed + [results[i]];
      }
    }
    assert results[..|results|] == results;
    r := DispatchResult(success, failed, |success| > 0);
  }

  lemma ShuffleSnoc(all: seq<ProviderResult>, a: seq<ProviderResult>, b: seq<ProviderResult>, x: ProviderResult)
    requires Shuffle(all, a, b)
    ensures Shuffle(all + [x], a + [x], b) && Shuffle(all + [x], a, b + [x])
  {
    assert (all + [x])[..|all|] == all;
    assert (a + [x])[..|a|] == a && (b + [x])[..|b|] == b;
  }

  /** The split is unique, so it depends on the results alone. */
  lemma {:induction false} SplitIsUnique(
    all: seq<ProviderResult>, a: seq<ProviderResult>, b: seq<ProviderResult>,
    c: seq<ProviderResult>, d: seq<ProviderResult>)
    requires Splits(all, a, b) && Splits(all, c, d)
    ensures a == c && b == d
    decreases |all|
  {
    if all != [] {
      var front, last := all[..|all| - 1], all[|all| - 1];
      if last.error.None? {
        assert b != [] ==> b[|b| - 1] != last;
        assert d != [] ==> d[|d| - 1] != last;
        SplitIsUnique(front, a[..|a| - 1], b, c[..|c| - 1], d);
        assert a == a[..|a| - 1] + [last] && c == c[..|c| - 1] + [last];
      } else {
        assert a != [] ==> a[|a| - 1] != last;
        assert c != [] ==> c[|c| - 1] != last;
        SplitIsUnique(front, a, b[..|b| - 1], c, d[..|d| - 1]);
        assert b == b[..|b| - 1] + [last] && d == d[..|d| - 1] + [last];
      }
    }
  }

  // ---------------------------------------------------------- the pipeline

  /** A draft is suppressed unless the client lets drafts through, whatever the noop
      option says; any other event is suppressed exactly when noop is set. */
  predicate Suppressed(noop: bool, status: string, allowDraft: bool) {
    if status == "draft" then !allowDraft else noop
  }

  function Outcomes(job: Job): seq<ProviderResult>
    requires job.Valid()
  {
    seq(|job.names|, p requires 0 <= p < |job.names| => Outcome(job, p))
  }

  /** The providers, in order, that want to hear of a suppressed event. */
  ghost predicate Notified(observes: nat -> bool, n: nat, told: seq<nat>) {
    && (forall i, j :: 0 <= i < j < |told| ==> told[i] < told[j])
    && (forall p: nat :: p in told <==> p < n && observes(p))
  }

  method NotifyNoopProviders(observes: nat -> bool, n: nat) returns (told: seq<nat>)
    ensures Notified(observes, n, told)
  {
    told := [];
    for p := 0 to n
      invariant Notified(observes, p, told)
    {
      if observes(p) {
        assert forall i :: 0 <= i < |told| ==> told[i] in told;
        told := told + [p];
      }
    }
  }

  /** The outcomes in provider order: name, state and error of each call. */
  ghost predicate Reports(
    names: seq<string>, call: (nat, Envelope) -> Option<BeforeHooks.Error>, env: Envelope, results: seq<ProviderResult>)
  {
    && |results| == |names|
    && forall p :: 0 <= p < |names| ==>
         results[p] == ProviderResult(names[p], if call(p, env).Some? then Failed else Delivered, call(p, env))
  }

  /** What a dispatch that was not stopped does, for the envelope the Before hooks left:
      each provider sees its spelled-out trace, and the result splits the outcomes. */
  ghost predicate Dispatched(
    hooks: nat, hc: HookContext, env: Envelope, names: seq<string>,
    call: (nat, Envelope) -> Option<BeforeHooks.Error>, trace: seq<Event>, r: DispatchResult)
  {
    && (forall p :: 0 <= p < |names| ==>
          Spelled(env, hc.(provider := names[p]), hooks, p, call(p, env), Project(trace, p)))
    && (forall e :: e in trace ==> e.p < |names|)
    && (exists results :: Reports(names, call, env, results) && Splits(results, r.success, r.failed))
    && (r.partialSuccess <==> exists p :: 0 <= p < |names| && call(p, env).None?)
  }

  /** dispatchAll. `call(p, env)` is what the call to the p-th provider returns;
      `observes(p)` is whether it has an OnNoopCall, and `told` the calls of those. */
  method DispatchAll(
    noop: bool, status: string, allowDraft: bool,
    hooks: seq<Hook>, hc: HookContext, names: seq<string>,
    observes: nat -> bool, call: (nat, Envelope) -> Option<BeforeHooks.Error>)
    returns (log: seq<HookContext>, told: seq<nat>, trace: seq<Event>, r: Result<DispatchResult, BeforeHooks.Error>)
    ensures Suppressed(noop, status, allowDraft) ==>
      log == [] && trace == [] && r == Ok(NOTHING) && Notified(observes, |names|, told)
    ensures !Suppressed(noop, status, allowDraft) ==> told == [] && BeforeHooks.Complete(Inlined, hooks, hc, log)
    ensures r.Err? ==> trace == []
    ensures !Suppressed(noop, status, allowDraft) ==> (r.Err? <==> Cancelled(hooks, log))
    ensures r.Err? && !Suppressed(noop, status, allowDraft) ==> Out(hooks, log, |log| - 1) == Cancel(r.error)
    ensures r.Ok? && !Suppressed(noop, status, allowDraft) ==>
      match Latest(hooks, log)
      case None => Dispatched(|hooks|, hc, hc.message, names, call, trace, r.value)
      case Some(e) =>
        Dispatched(|hooks|, hc.(eventName := e.eventName, context := e.context, message := e), e,
                   names, call, trace, r.value)
  {
    log, told, trace := [], [], [];
    var isDraft := status == "draft";
    if (noop || isDraft) && (!isDraft || !allowDraft) {
      told := NotifyNoopProviders(observes, |names|);
      r := Ok(NOTHING);
      return;
    }
    var final, before;
    log, final, before := RunBefore(hooks, hc);
    if before.Err? {
      r := Err(before.error);
      return;
    }
    var env := before.value;
    if |names| == 0 {
      NothingDispatched(|hooks|, final, env, names, call);
      r := Ok(NOTHING);
      return;
    }
    var job := Job(final, env, names, seq(|names|, p requires 0 <= p < |names| => call(p, env)), |hooks|);
    var s := RunAll(job);
    AllStored(job, s);
    var results := seq(|names|, p requires 0 <= p < |names| => s.results[p].value);
    var sum := Aggregate(results);
    SumIsDispatched(job, call, s, results, sum);
    trace, r := s.trace, Ok(sum);
  }

  lemma NothingDispatched(
    hooks: nat, hc: HookContext, env: Envelope, names: seq<string>, call: (nat, Envelope) -> Option<BeforeHooks.Error>)
    requires names == []
    ensures Dispatched(hooks, hc, env, names, call, [], NOTHING)
  {
    assert Reports(names, call, env, []) && Splits([], [], []);
  }

  lemma SumIsDispatched(
    job: Job, call: (nat, Envelope) -> Option<BeforeHooks.Error>,
    s: State, results: seq<ProviderResult>, sum: DispatchResult)
    requires Inv(job, s) && Complete(s) && |results| == |job.names|
    requires forall p :: 0 <= p < |job.names| ==> job.errs[p] == call(p, job.env) && s.results[p] == Some(results[p])
    requires Splits(results, sum.success, sum.failed) && sum.partialSuccess == (sum.success != [])
    ensures Dispatched(job.hooks, job.hc, job.env, job.names, call, s.trace, sum)
  {
    AllStored(job, s);
    forall p | 0 <= p < |job.names|
      ensures Spelled(job.env, job.hc.(provider := job.names[p]), job.hooks, p, call(p, job.env), Project(s.trace, p))
    {
      CanonicalIsSpelled(job, p);
    }
    assert Reports(job.names, call, job.env, results);
    assert results == Outcomes(job);
    SomeDelivered(job, sum.success, sum.failed);
  }

  /** Every reported success is a delivery without error, every reported failure a failed
      call with its error, each under the name of a provider it happened to; and every
      provider is in one of the two. */
  lemma ResultsTellTheTruth(
    names: seq<string>, call: (nat, Envelope) -> Option<BeforeHooks.Error>, env: Envelope, r: DispatchResult)
    requires exists results :: Reports(names, call, env, results) && Splits(results, r.success, r.failed)
    ensures forall x :: x in r.success ==> x.state == Delivered && x.error == None && Happened(names, call, env, x)
    ensures forall x :: x in r.failed ==> x.state == Failed && x.error.Some? && Happened(names, call, env, x)
    ensures forall p :: 0 <= p < |names| ==>
      if call(p, env).None? then ProviderResult(names[p], Delivered, None) in r.success
      else ProviderResult(names[p], Failed, call(p, env)) in r.failed
  {
    var results :| Reports(names, call, env, results) && Splits(results, r.success, r.failed);
    ShuffleHasAll(results, r.success, r.failed);
    ReportsHappened(names, call, env, results);
    forall p | 0 <= p < |names|
      ensures results[p] in results && (results[p] in r.success || results[p] in r.failed)
    {
    }
  }

  lemma ReportsHappened(
    names: seq<string>, call: (nat, Envelope) -> Option<BeforeHooks.Error>, env: Envelope, results: seq<ProviderResult>)
    requires Reports(names, call, env, results)
    ensures forall x :: x in results ==>
      Happened(names, call, env, x) && x.state == (if x.error.None? then Delivered else Failed)
  {
    forall x | x in results
      ensures Happened(names, call, env, x) && x.state == if x.error.None? then Delivered else Failed
    {
      var p :| 0 <= p < |results| && results[p] == x;
      assert call(p, env) == x.error && names[p] == x.provider;
    }
  }

  ghost predicate Happened(
    names: seq<string>, call: (nat, Envelope) -> Option<BeforeHooks.Error>, env: Envelope, x: ProviderResult)
  {
    exists p :: 0 <= p < |names| && names[p] == x.provider && call(p, env) == x.error
  }

  lemma AllStored(job: Job, s: State)
    requires Inv(job, s) && Complete(s)
    ensures forall p :: 0 <= p < |job.names| ==>
      s.results[p] == Some(Outcome(job, p)) && Project(s.trace, p) == Canonical(job, p)
  {
    forall p | 0 <= p < |job.names|
      ensures s.results[p] == Some(Outcome(job, p)) && Project(s.trace, p) == Canonical(job, p)
    {
      assert Follows(job, s, p);
    }
  }

  lemma {:induction false} ShuffleHasAll(all: seq<ProviderResult>, a: seq<ProviderResult>, b: seq<ProviderResult>)
    requires Shuffle(all, a, b)
    ensures forall x :: x in all <==> x in a || x in b
    decreases |all|
  {
    if all != [] {
      var front, last := all[..|all| - 1], all[|all| - 1];
      assert all == front + [last];
      if a != [] && a[|a| - 1] == last && Shuffle(front, a[..|a| - 1], b) {
        ShuffleHasAll(front, a[..|a| - 1], b);
        assert a == a[..|a| - 1] + [last];
      } else {
        ShuffleHasAll(front, a, b[..|b| - 1]);
        assert b == b[..|b| - 1] + [last];
      }
    }
  }

  lemma SomeDelivered(job: Job, a: seq<ProviderResult>, b: seq<ProviderResult>)
    requires job.Valid() && Splits(Outcomes(job), a, b)
    ensures a != [] <==> exists p :: 0 <= p < |job.names| && job.errs[p].None?
  {
    ShuffleHasAll(Outcomes(job), a, b);
    if a != [] {
      assert a[0] in Outcomes(job);
    }
    if p :| 0 <= p < |job.names| && job.errs[p].None? {
      assert Outcomes(job)[p] in Outcomes(job);
    }
  }
}
