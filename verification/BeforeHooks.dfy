/** The gated chain of Before hooks at the start of a dispatch. */
module BeforeHooks {
  import opened Common
  import opened Payloads
  import opened ContextMerge

  type Error = string

  datatype Envelope = Envelope(eventName: string, properties: Payload, context: AnalyticsContext, metadata: Payload)

  datatype HookContext = HookContext(
    operation: string,
    eventName: string,
    context: AnalyticsContext,
    message: Envelope,
    provider: string)

  /** What Before returns: a nil envelope, a new envelope, or an error. */
  datatype Outcome = Keep | Replace(env: Envelope) | Cancel(error: Error)

  /** A hook's Before. It sees its own argument and may have state: its outcome may
      depend on every Before call made earlier in the chain. */
  type Hook = (seq<HookContext>, HookContext) -> Outcome

  /** The outcome of the i-th call of a log of calls. */
  function Out(hooks: seq<Hook>, log: seq<HookContext>, i: nat): Outcome
    requires i < |log| <= |hooks|
  {
    hooks[i](log[..i], log[i])
  }

  /** The envelope of the last call that returned one. */
  function Latest(hooks: seq<Hook>, log: seq<HookContext>): Option<Envelope>
    requires |log| <= |hooks|
    decreases |log|
  {
    if log == [] then None
    else
      var n := |log| - 1;
      var out := Out(hooks, log, n);
      if out.Replace? then Some(out.env) else Latest(hooks, log[..n])
  }

  /** The two loops differ in whether the message follows a replaced envelope. */
  datatype Form = Inlined | Chain

  function Seen(form: Form, hc: HookContext, latest: Option<Envelope>): HookContext {
    match latest
    case None => hc
    case Some(e) =>
      if form == Inlined then hc.(eventName := e.eventName, context := e.context, message := e)
      else hc.(eventName := e.eventName, context := e.context)
  }

  predicate Cancelled(hooks: seq<Hook>, log: seq<HookContext>)
    requires |log| <= |hooks|
  {
    log != [] && Out(hooks, log, |log| - 1).Cancel?
  }

  /** The log of a chain: hooks are called in order, each with what the last envelope
      before it says, and none after a cancellation. */
  ghost predicate Threaded(form: Form, hooks: seq<Hook>, hc: HookContext, log: seq<HookContext>) {
    && |log| <= |hooks|
    && (forall i :: 0 <= i < |log| ==> log[i] == Seen(form, hc, Latest(hooks, log[..i])))
    && (forall i :: 0 <= i < |log| - 1 ==> !Out(hooks, log, i).Cancel?)
  }

  /** A chain that has run to its end. */
  ghost predicate Complete(form: Form, hooks: seq<Hook>, hc: HookContext, log: seq<HookContext>) {
    && Threaded(form, hooks, hc, log)
    && (|log| == |hooks| || Cancelled(hooks, log))
  }

  /** What the i-th hook is shown: the first context, with name and context of the last
      envelope returned before it, and in the inlined loop with that as message. */
  lemma WhatHooksSee(form: Form, hooks: seq<Hook>, hc: HookContext, log: seq<HookContext>, i: nat)
    requires Threaded(form, hooks, hc, log) && i < |log|
    ensures match Latest(hooks, log[..i])
      case None => log[i] == hc
      case Some(e) =>
        && log[i].eventName == e.eventName && log[i].context == e.context
        && log[i].message == (if form == Inlined then e else hc.message)
        && log[i].operation == hc.operation && log[i].provider == hc.provider
  {
  }

  /** The inlined loop of the client. */
  method RunBefore(
    hooks: seq<Hook>, hc0: HookContext) returns (log: seq<HookContext>, hc: HookContext, r: Result<Envelope, Error>)
    ensures Complete(Inlined, hooks, hc0, log)
    ensures r.Err? <==> Cancelled(hooks, log)
    ensures r.Err? ==> Out(hooks, log, |log| - 1) == Cancel(r.error)
    ensures r.Ok? ==>
      match Latest(hooks, log)
      case None => r.value == hc0.message && hc == hc0
      case Some(e) => r.value == e && hc == hc0.(eventName := e.eventName, context := e.context, message := e)
  {
    log, hc := [], hc0;
    var env := hc0.message;
    for i := 0 to |hooks|
      invariant |log| == i && Threaded(Inlined, hooks, hc0, log) && !Cancelled(hooks, log)
      invariant hc == Seen(Inlined, hc0, Latest(hooks, log))
      invariant env == match Latest(hooks, log) case Some(e) => e case None => hc0.message
    {
      ThreadedSnoc(Inlined, hooks, hc0, log, hc);
      var out := hooks[i](log, hc);
      log := log + [hc];
      if out.Cancel? {
        return log, hc, Err(out.error);
      }
      if out.Replace? {
        env := out.env;
        hc := hc.(eventName := out.env.eventName, context := out.env.context, message := out.env);
      }
    }
    r := Ok(env);
  }

  /** Chain.Before: the last envelope, or none. */
  method ChainBefore(
    hooks: seq<Hook>, hc0: HookContext) returns (log: seq<HookContext>, r: Result<Option<Envelope>, Error>)
    ensures Complete(Chain, hooks, hc0, log)
    ensures r.Err? <==> Cancelled(hooks, log)
    ensures r.Err? ==> Out(hooks, log, |log| - 1) == Cancel(r.error)
    ensures r.Ok? ==> r.value == Latest(hooks, log)
  {
    log := [];
    var latest, hc := None, hc0;
    for i := 0 to |hooks|
      invariant |log| == i && Threaded(Chain, hooks, hc0, log) && !Cancelled(hooks, log)
      invariant hc == Seen(Chain, hc0, Latest(hooks, log))
      invariant latest == Latest(hooks, log)
    {
      ThreadedSnoc(Chain, hooks, hc0, log, hc);
      var out := hooks[i](log, hc);
      log := log + [hc];
      if out.Cancel? {
        return log, Err(out.error);
      }
      if out.Replace? {
        latest := Some(out.env);
        hc := hc.(eventName := out.env.eventName, context := out.env.context);
      }
    }
    r := Ok(latest);
  }

  lemma OutOfPrefix(hooks: seq<Hook>, log: seq<HookContext>, n: nat, i: nat)
    requires i < n <= |log| <= |hooks|
    ensures Out(hooks, log[..n], i) == Out(hooks, log, i)
  {
    assert log[..n][..i] == log[..i];
  }

  lemma OutsOfSnoc(hooks: seq<Hook>, log: seq<HookContext>, hc: HookContext)
    requires |log| < |hooks|
    ensures var more := log + [hc];
      forall i :: 0 <= i < |log| ==> more[..i] == log[..i] && Out(hooks, more, i) == Out(hooks, log, i)
  {
    var more := log + [hc];
    forall i | 0 <= i < |log| ensures more[..i] == log[..i] && Out(hooks, more, i) == Out(hooks, log, i) {
      assert more[..i] == log[..i];
    }
  }

  lemma LatestOfSnoc(hooks: seq<Hook>, log: seq<HookContext>, hc: HookContext)
    requires |log| < |hooks|
    ensures var more, out := log + [hc], hooks[|log|](log, hc);
      && Out(hooks, more, |log|) == out
      && Latest(hooks, more) == (if out.Replace? then Some(out.env) else Latest(hooks, log))
  {
    assert (log + [hc])[..|log|] == log;
  }

  lemma ThreadedSnoc(form: Form, hooks: seq<Hook>, hc0: HookContext, log: seq<HookContext>, hc: HookContext)
    requires Threaded(form, hooks, hc0, log) && !Cancelled(hooks, log) && |log| < |hooks|
    requires hc == Seen(form, hc0, Latest(hooks, log))
    ensures var more, out := log + [hc], hooks[|log|](log, hc);
      && Threaded(form, hooks, hc0, more)
      && Out(hooks, more, |log|) == out
      && Latest(hooks, more) == (if out.Replace? then Some(out.env) else Latest(hooks, log))
  {
    var more := log + [hc];
    LatestOfSnoc(hooks, log, hc);
    OutsOfSnoc(hooks, log, hc);
    assert more[..|log|] == log;
    forall i | 0 <= i < |more| ensures more[i] == Seen(form, hc0, Latest(hooks, more[..i])) {
      if i < |log| {
        assert more[i] == log[i] && more[..i] == log[..i];
      }
    }
    forall i | 0 <= i < |log| ensures !Out(hooks, more, i).Cancel? {
      assert Out(hooks, more, i) == Out(hooks, log, i);
    }
  }

  /** What Latest means: the last replacing call, with only Keep (or a final Cancel)
      after it. */
  lemma {:induction false} LatestIsTheLast(hooks: seq<Hook>, log: seq<HookContext>)
    requires |log| <= |hooks|
    ensures Latest(hooks, log).None? <==> forall i :: 0 <= i < |log| ==> !Out(hooks, log, i).Replace?
    ensures Latest(hooks, log).Some? ==>
      exists i :: 0 <= i < |log| && Out(hooks, log, i) == Replace(Latest(hooks, log).value)
        && forall j :: i < j < |log| ==> !Out(hooks, log, j).Replace?
    decreases |log|
  {
    if log != [] {
      var n := |log| - 1;
      LatestIsTheLast(hooks, log[..n]);
      forall i | 0 <= i < n ensures Out(hooks, log[..n], i) == Out(hooks, log, i) {
        OutOfPrefix(hooks, log, n, i);
      }
      if !Out(hooks, log, n).Replace? && Latest(hooks, log[..n]).Some? {
        var i :| 0 <= i < n && Out(hooks, log[..n], i) == Replace(Latest(hooks, log[..n]).value)
          && forall j :: i < j < n ==> !Out(hooks, log[..n], j).Replace?;
        assert Out(hooks, log, i) == Replace(Latest(hooks, log).value);
      }
    }
  }

  lemma {:induction false} PrefixesAgree(
    form: Form, hooks: seq<Hook>, hc: HookContext, a: seq<HookContext>, b: seq<HookContext>, n: nat)
    requires Threaded(form, hooks, hc, a) && Threaded(form, hooks, hc, b) && n <= |a| && n <= |b|
    ensures a[..n] == b[..n]
  {
    if n > 0 {
      var m := n - 1;
      PrefixesAgree(form, hooks, hc, a, b, m);
      assert a[m] == Seen(form, hc, Latest(hooks, a[..m])) && b[m] == Seen(form, hc, Latest(hooks, b[..m]));
      assert a[..n] == a[..m] + [a[m]] && b[..n] == b[..m] + [b[m]];
    }
  }

  /** A chain run to its end has only one log, so what is said of it says it all. */
  lemma CompleteIsUnique(form: Form, hooks: seq<Hook>, hc: HookContext, a: seq<HookContext>, b: seq<HookContext>)
    requires Complete(form, hooks, hc, a) && Complete(form, hooks, hc, b)
    ensures a == b
  {
    var n := Min(|a|, |b|);
    PrefixesAgree(form, hooks, hc, a, b, n);
    if |a| < |b| {
      NotLonger(form, hooks, hc, a, b);
    } else if |b| < |a| {
      NotLonger(form, hooks, hc, b, a);
    }
    assert a[..n] == a && b[..n] == b;
  }

  lemma NotLonger(form: Form, hooks: seq<Hook>, hc: HookContext, a: seq<HookContext>, b: seq<HookContext>)
    requires Complete(form, hooks, hc, a) && Threaded(form, hooks, hc, b) && |a| <= |b| && a == b[..|a|]
    ensures |a| == |b|
  {
    if a != [] && |a| < |hooks| {
      OutOfPrefix(hooks, b, |a|, |a| - 1);
    }
  }

  // ------------------------------------------- the inlined loop and the chain

  const BLANK := Envelope("", map[], EMPTY, map[])

  function Strip(hc: HookContext): HookContext {
    hc.(message := BLANK)
  }

  function StripAll(log: seq<HookContext>): seq<HookContext> {
    seq(|log|, i requires 0 <= i < |log| => Strip(log[i]))
  }

  /** A hook whose outcome does not depend on hc.Message. */
  ghost predicate IgnoresMessage(h: Hook) {
    forall log, hc :: h(log, hc) == h(StripAll(log), Strip(hc))
  }

  lemma StripPrefix(a: seq<HookContext>, b: seq<HookContext>, n: nat)
    requires n <= |a| && n <= |b| && forall i :: 0 <= i < n ==> Strip(a[i]) == Strip(b[i])
    ensures StripAll(a[..n]) == StripAll(b[..n])
  {
  }

  /** Two logs of equal calls, up to messages, have equal outcomes. */
  lemma SameOutcome(hooks: seq<Hook>, a: seq<HookContext>, b: seq<HookContext>, i: nat)
    requires i < |a| <= |hooks| && i < |b| <= |hooks| && IgnoresMessage(hooks[i])
    requires forall k :: 0 <= k <= i ==> Strip(a[k]) == Strip(b[k])
    ensures Out(hooks, a, i) == Out(hooks, b, i)
  {
    StripPrefix(a, b, i);
    assert hooks[i](a[..i], a[i]) == hooks[i](StripAll(a[..i]), Strip(a[i]));
    assert hooks[i](b[..i], b[i]) == hooks[i](StripAll(b[..i]), Strip(b[i]));
  }

  ghost predicate AllIgnoreMessage(hooks: seq<Hook>) {
    forall i :: 0 <= i < |hooks| ==> IgnoresMessage(hooks[i])
  }

  /** The first n calls agree up to the message, and so do their outcomes. */
  ghost predicate Alike(hooks: seq<Hook>, a: seq<HookContext>, b: seq<HookContext>, n: nat)
    requires n <= |a| <= |hooks| && n <= |b| <= |hooks|
  {
    forall i :: 0 <= i < n ==> Strip(a[i]) == Strip(b[i]) && Out(hooks, a, i) == Out(hooks, b, i)
  }

  lemma {:induction false} SameNext(hooks: seq<Hook>, hc: HookContext, a: seq<HookContext>, b: seq<HookContext>, m: nat)
    requires m < |a| <= |hooks| && m < |b| <= |hooks| && AllIgnoreMessage(hooks)
    requires Alike(hooks, a, b, m) && Latest(hooks, a[..m]) == Latest(hooks, b[..m])
    requires a[m] == Seen(Inlined, hc, Latest(hooks, a[..m])) && b[m] == Seen(Chain, hc, Latest(hooks, b[..m]))
    ensures Alike(hooks, a, b, m + 1) && Latest(hooks, a[..m + 1]) == Latest(hooks, b[..m + 1])
  {
    SameOutcome(hooks, a, b, m);
    OutOfPrefix(hooks, a, m + 1, m);
    OutOfPrefix(hooks, b, m + 1, m);
    assert a[..m + 1][..m] == a[..m] && b[..m + 1][..m] == b[..m];
  }

  lemma {:induction false} SameUpTo(hooks: seq<Hook>, hc: HookContext, a: seq<HookContext>, b: seq<HookContext>, n: nat)
    requires Threaded(Inlined, hooks, hc, a) && Threaded(Chain, hooks, hc, b) && AllIgnoreMessage(hooks)
    requires n <= |a| && n <= |b|
    ensures Alike(hooks, a, b, n) && Latest(hooks, a[..n]) == Latest(hooks, b[..n])
  {
    if n > 0 {
      var m := n - 1;
      SameUpTo(hooks, hc, a, b, m);
      assert a[m] == Seen(Inlined, hc, Latest(hooks, a[..m]));
      assert b[m] == Seen(Chain, hc, Latest(hooks, b[..m]));
      SameNext(hooks, hc, a, b, m);
    }
  }

  lemma SameLength(hooks: seq<Hook>, hc: HookContext, a: seq<HookContext>, b: seq<HookContext>, n: nat)
    requires Complete(Inlined, hooks, hc, a) && Complete(Chain, hooks, hc, b)
    requires n == Min(|a|, |b|) && Alike(hooks, a, b, n)
    ensures |a| == |b|
  {
  }

  /** For hooks that ignore the message both loops make the same calls, up to the
      message, stop at the same hook for the same reason and pass on the same
      envelope. */
  lemma InlinedRefinesChain(hooks: seq<Hook>, hc: HookContext, a: seq<HookContext>, b: seq<HookContext>)
    requires Complete(Inlined, hooks, hc, a) && Complete(Chain, hooks, hc, b) && AllIgnoreMessage(hooks)
    ensures |a| == |b| && Alike(hooks, a, b, |a|)
    ensures Cancelled(hooks, a) == Cancelled(hooks, b) && Latest(hooks, a) == Latest(hooks, b)
  {
    var n := Min(|a|, |b|);
    SameUpTo(hooks, hc, a, b, n);
    SameLength(hooks, hc, a, b, n);
    assert a[..n] == a && b[..n] == b;
  }

  // A hook without state, and when the two loops cannot be told apart by it.

  ghost predicate Stateless(h: Hook) {
    forall log, hc :: h(log, hc) == h([], hc)
  }

  /** From this first context both loops take the same decisions. */
  ghost predicate LoopsAgree(hooks: seq<Hook>, hc: HookContext) {
    forall a, b :: Complete(Inlined, hooks, hc, a) && Complete(Chain, hooks, hc, b) ==>
      && |a| == |b|
      && (forall i :: 0 <= i < |a| ==> Out(hooks, a, i) == Out(hooks, b, i))
  }

  function Always(e: Envelope): Hook {
    (log: seq<HookContext>, hc: HookContext) => Replace(e)
  }

  lemma AlwaysIgnoresMessage(e: Envelope)
    ensures IgnoresMessage(Always(e))
  {
  }

  /** Behind a hook that always replaces, the two calls of the next hook. */
  function AfterReplacing(form: Form, e: Envelope, hc: HookContext): seq<HookContext> {
    [hc, Seen(form, hc, Some(e))]
  }

  lemma AfterReplacingIsComplete(form: Form, e: Envelope, h: Hook, hc: HookContext)
    ensures Complete(form, [Always(e), h], hc, AfterReplacing(form, e, hc))
    ensures Out([Always(e), h], AfterReplacing(form, e, hc), 1) == h([hc], Seen(form, hc, Some(e)))
  {
    var hooks, log := [Always(e), h], AfterReplacing(form, e, hc);
    assert log[..0] == [] && log[..1] == [hc];
    assert Out(hooks, [hc], 0) == Always(e)([hc][..0], hc) == Replace(e);
    assert Latest(hooks, log[..1]) == Some(e);
    assert Out(hooks, log, 0) == Replace(e);
  }

  /** With h behind a replacement to e, agreement means that h takes the message the
      inlined loop hands it like the one the chain leaves. */
  lemma AgreementBehind(e: Envelope, h: Hook, hc: HookContext)
    requires Stateless(h) && LoopsAgree([Always(e), h], hc)
    ensures h([], Seen(Inlined, hc, Some(e))) == h([], Seen(Chain, hc, Some(e)))
  {
    AfterReplacingIsComplete(Inlined, e, h, hc);
    AfterReplacingIsComplete(Chain, e, h, hc);
    var hooks, a, b := [Always(e), h], AfterReplacing(Inlined, e, hc), AfterReplacing(Chain, e, hc);
    assert Out(hooks, a, 1) == Out(hooks, b, 1);
  }

  lemma AgreementMeansIgnoring(h: Hook)
    requires Stateless(h) && forall e, hc :: LoopsAgree([Always(e), h], hc)
    ensures IgnoresMessage(h)
  {
    forall log, c ensures h(log, c) == h(StripAll(log), Strip(c)) {
      var e := BLANK.(eventName := c.eventName, context := c.context);
      AgreementBehind(e, h, c);
      AgreementBehind(e, h, Strip(c));
      assert Seen(Chain, c, Some(e)) == c && Seen(Chain, Strip(c), Some(e)) == Strip(c);
      assert Seen(Inlined, c, Some(e)) == Seen(Inlined, Strip(c), Some(e));
    }
  }

  /** For a hook without state ignoring the message is also necessary: it ignores it if
      and only if the loops agree from every context on it behind every replacement. */
  lemma StatelessAgreementExactlyWhen(h: Hook)
    requires Stateless(h)
    ensures IgnoresMessage(h) <==> forall e, hc :: LoopsAgree([Always(e), h], hc)
  {
    if IgnoresMessage(h) {
      forall e, hc ensures LoopsAgree([Always(e), h], hc) {
        AlwaysIgnoresMessage(e);
        forall a, b | Complete(Inlined, [Always(e), h], hc, a) && Complete(Chain, [Always(e), h], hc, b)
          ensures |a| == |b| && forall i :: 0 <= i < |a| ==> Out([Always(e), h], a, i) == Out([Always(e), h], b, i)
        {
          InlinedRefinesChain([Always(e), h], hc, a, b);
        }
      }
    } else if forall e, hc :: LoopsAgree([Always(e), h], hc) {
      AgreementMeansIgnoring(h);
    }
  }

  /** For a hook that reads the message they can differ: one hook renames the event,
      the next rejects a message that still has the old name. */
  lemma MessageReaderCounterexample(hc: HookContext, renamed: Envelope) returns (hooks: seq<Hook>)
    requires hc.message != renamed
    ensures |hooks| == 2 && IgnoresMessage(hooks[0])
    ensures forall a, b :: Complete(Inlined, hooks, hc, a) && Complete(Chain, hooks, hc, b) ==>
      !Cancelled(hooks, a) && Cancelled(hooks, b)
  {
    var rename: Hook := (log: seq<HookContext>, c: HookContext) => Replace(renamed);
    var check: Hook := (log: seq<HookContext>, c: HookContext) =>
      if c.message == renamed then Keep else Cancel("stale message");
    hooks := [rename, check];
    forall form, log | Complete(form, hooks, hc, log)
      ensures |log| == 2 && log[1] == Seen(form, hc, Some(renamed))
    {
      assert Out(hooks, log, 0) == Replace(renamed);
      assert Latest(hooks, log[..1]) == Some(renamed) by { assert log[..1][..0] == []; OutOfPrefix(hooks, log, 1, 0); }
    }
  }
}
