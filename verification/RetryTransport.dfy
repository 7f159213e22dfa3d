/** The retry loop around a provider's HTTP request. Durations are nanoseconds. */
module RetryTransport {
  import opened Common

  const DEFAULT_MAX_RETRIES := 3
  const DEFAULT_INITIAL_BACKOFF := 100_000_000
  const DEFAULT_MAX_BACKOFF := 30_000_000_000
  const DEFAULT_MULTIPLIER := 2.0

  /** Conversion of a float to a duration. */
  function Truncate(x: real): int {
    if x >= 0.0 then x.Floor else -((-x).Floor)
  }

  /** One step of exponential growth. */
  function ByMultiplier(multiplier: real): int -> int {
    var m := if multiplier == 0.0 then DEFAULT_MULTIPLIER else multiplier;
    d => Truncate(d as real * m)
  }

  /** `grow` is the growth of the backoff, ByMultiplier of the configured factor. */
  datatype RetryConfig = RetryConfig(
    maxRetries: int,
    initial: int,
    maxBackoff: int,
    grow: int -> int,
    jitter: bool,
    retryable: set<int>)

  /** The settings as the caller gives them. */
  datatype Settings = Settings(
    maxRetries: int,
    initial: int,
    maxBackoff: int,
    multiplier: real,
    jitter: bool,
    retryable: set<int>)

  /** Zero values mean the default; a negative maxRetries stays negative. */
  function Configure(s: Settings): RetryConfig {
    RetryConfig(
      if s.maxRetries == 0 then DEFAULT_MAX_RETRIES else s.maxRetries,
      if s.initial == 0 then DEFAULT_INITIAL_BACKOFF else s.initial,
      if s.maxBackoff == 0 then DEFAULT_MAX_BACKOFF else s.maxBackoff,
      ByMultiplier(s.multiplier), s.jitter, s.retryable)
  }

  /** What one attempt brings: a transport error (and whether the context has ended
      by then) or a response with a status code. */
  datatype Outcome = Failed(contextEnded: bool) | Responded(code: int)

  /** What Do hands back. `Nothing` is a nil response together with a nil error. */
  datatype Result = Response(code: int) | ContextError | LastError(of: Outcome) | Nothing

  /** Everything outside the loop: attempt results, whether the context ends during
      the k-th sleep, and the k-th random draw below a bound. */
  datatype World = World(attempt: nat -> Outcome, endsDuringSleep: nat -> bool, draw: (nat, int) -> int)

  /** What rand.Int63n promises of its results. */
  ghost predicate Draws(draw: (nat, int) -> int) {
    forall k, n :: n > 0 ==> 0 <= draw(k, n) < n
  }

  /** The k-th sleep, for a nominal backoff d. */
  function Jittered(d: int, jitter: bool, k: nat, draw: (nat, int) -> int): (sleep: int)
    ensures Draws(draw) && d > 0 ==> d / 2 <= sleep <= d
    ensures d <= 0 || !jitter ==> sleep == d
  {
    if !jitter || d <= 0 then d
    else
      var half := d / 2;
      half + draw(k, half + 1)
  }

  /** The backoff before the k-th retry, jitter aside. */
  function Nominal(c: RetryConfig, k: nat): int {
    if k == 0 then c.initial
    else Min(c.grow(Nominal(c, k - 1)), c.maxBackoff)
  }

  predicate Retries(c: RetryConfig, o: Outcome) {
    (o.Failed? && !o.contextEnded) || (o.Responded? && o.code in c.retryable)
  }

  /** What the attempt numbered `last` makes of the run, given that all before it
      were retried. */
  ghost predicate Explains(c: RetryConfig, w: World, attempts: nat, result: Result) {
    match result
    case Response(code) => attempts > 0 && w.attempt(attempts - 1) == Responded(code) && code !in c.retryable
    case ContextError =>
      || (attempts > 0 && w.attempt(attempts - 1) == Failed(true))
      || (0 < attempts <= c.maxRetries && w.endsDuringSleep(attempts))
    case LastError(o) => attempts == c.maxRetries + 1 && attempts > 0 && o == w.attempt(attempts - 1)
    case Nothing => attempts == 0
  }

  /** The sleeps are the jittered nominal backoffs, in order. */
  ghost predicate Slept(c: RetryConfig, w: World, sleeps: seq<int>) {
    forall k :: 0 <= k < |sleeps| ==> sleeps[k] == Jittered(Nominal(c, k), c.jitter, k, w.draw)
  }

  /** What one call of Do may end with. */
  ghost predicate Ran(c: RetryConfig, w: World, result: Result, attempts: nat, sleeps: seq<int>) {
    && (c.maxRetries >= 0 ==> 1 <= attempts <= c.maxRetries + 1)
    && (result == Nothing <==> c.maxRetries < 0)
    && Explains(c, w, attempts, result)
    && (forall k :: 0 <= k < attempts - 1 ==> Retries(c, w.attempt(k)))
    && (result.LastError? ==> Retries(c, w.attempt(attempts - 1)))
    && (forall k :: 0 < k < attempts ==> !w.endsDuringSleep(k))
    && Slept(c, w, sleeps) && |sleeps| <= attempts
    && (attempts > 0 ==> |sleeps| >= attempts - 1)
    && (attempts > 0 && |sleeps| == attempts ==>
          && result == ContextError && attempts <= c.maxRetries
          && Retries(c, w.attempt(attempts - 1)) && w.endsDuringSleep(attempts))
    && (result == ContextError && |sleeps| < attempts ==> w.attempt(attempts - 1) == Failed(true))
  }

  method Do(s: Settings, w: World) returns (result: Result, attempts: nat, sleeps: seq<int>)
    ensures Ran(Configure(s), w, result, attempts, sleeps)
  {
    var c := Configure(s);
    var backoff := c.initial;
    result, attempts, sleeps := Nothing, 0, [];
    while attempts <= c.maxRetries
      invariant attempts == 0 || attempts <= c.maxRetries + 1
      invariant attempts == 0 ==> result == Nothing && sleeps == []
      invariant attempts > 0 ==> |sleeps| == attempts - 1 && result == LastError(w.attempt(attempts - 1))
      invariant backoff == Nominal(c, |sleeps|)
      invariant forall k :: 0 <= k < attempts ==> Retries(c, w.attempt(k))
      invariant forall k :: 0 < k < attempts ==> !w.endsDuringSleep(k)
      invariant Slept(c, w, sleeps)
    {
      if attempts > 0 {
        sleeps := sleeps + [Jittered(backoff, c.jitter, |sleeps|, w.draw)];
        if w.endsDuringSleep(attempts) {
          return ContextError, attempts, sleeps;
        }
        var next := c.grow(backoff);
        if next > c.maxBackoff {
          next := c.maxBackoff;
        }
        backoff := next;
      }
      var o := w.attempt(attempts);
      attempts := attempts + 1;
      match o {
        case Failed(ended) =>
          if ended {
            return ContextError, attempts, sleeps;
          }
        case Responded(code) =>
          if code !in c.retryable {
            return Response(code), attempts, sleeps;
          }
      }
      result := LastError(o);
    }
  }

  // ------------------------------------------------------------------- bounds

  function Sum(xs: seq<int>): int {
    if xs == [] then 0 else Sum(xs[..|xs| - 1]) + xs[|xs| - 1]
  }

  /** Every nominal backoff after the first is capped; the first is not. */
  lemma NominalIsCapped(c: RetryConfig, k: nat)
    requires k > 0
    ensures Nominal(c, k) <= c.maxBackoff
  {
  }

  /** Total sleep, for any draws: the uncapped first backoff plus a cap per further retry. */
  lemma {:induction false} TotalSleepBound(c: RetryConfig, w: World, sleeps: seq<int>)
    requires Slept(c, w, sleeps) && Draws(w.draw)
    requires |sleeps| > 0
    ensures Sum(sleeps) <= c.initial + (|sleeps| - 1) * c.maxBackoff
  {
    var last := |sleeps| - 1;
    if last == 0 {
      assert sleeps[..0] == [];
    } else {
      TotalSleepBound(c, w, sleeps[..last]);
      NominalIsCapped(c, last);
      OneMore(last - 1, c.maxBackoff);
    }
  }

  /** The same in terms of the configured number of retries. */
  lemma TotalSleepByRetries(c: RetryConfig, w: World, sleeps: seq<int>)
    requires Slept(c, w, sleeps) && Draws(w.draw)
    requires 1 <= c.maxRetries && |sleeps| <= c.maxRetries && c.initial >= 0 && c.maxBackoff >= 0
    ensures Sum(sleeps) <= c.initial + (c.maxRetries - 1) * c.maxBackoff
  {
    if |sleeps| > 0 {
      TotalSleepBound(c, w, sleeps);
      Monotone(|sleeps| - 1, c.maxRetries - 1, c.maxBackoff);
    } else {
      Monotone(0, c.maxRetries - 1, c.maxBackoff);
    }
  }

  lemma OneMore(n: nat, m: int)
    ensures n * m + m == (n + 1) * m
  {
  }

  lemma Monotone(a: nat, b: nat, m: nat)
    requires a <= b
    ensures a * m <= b * m
  {
  }

  /** What a caller who sets nothing can rely on: between one and four attempts, never
      both results missing, and at most 0.7 seconds of sleep. */
  lemma DefaultsAreBounded(jitter: bool, retryable: set<int>, w: World, result: Result, attempts: nat, sleeps: seq<int>)
    requires Ran(Configure(Settings(0, 0, 0, 0.0, jitter, retryable)), w, result, attempts, sleeps) && Draws(w.draw)
    ensures 1 <= attempts <= 4 && result != Nothing && |sleeps| <= 3
    ensures Sum(sleeps) <= 700_000_000
  {
    var c := Configure(Settings(0, 0, 0, 0.0, jitter, retryable));
    assert Nominal(c, 0) == 100_000_000;
    assert Nominal(c, 1) == 200_000_000;
    assert Nominal(c, 2) == 400_000_000;
    var n := |sleeps|;
    if n >= 1 { assert sleeps[..1][..0] == [] && Sum(sleeps[..1]) == sleeps[0] <= 100_000_000; }
    if n >= 2 { assert sleeps[..2][..1] == sleeps[..1] && Sum(sleeps[..2]) <= 300_000_000; }
    if n >= 3 { assert sleeps[..3][..2] == sleeps[..2] && Sum(sleeps[..3]) <= 700_000_000; }
    assert sleeps[..n] == sleeps;
    assert Sum([]) == 0;
  }

  /** The draw can reach the full backoff exactly when that is even, although it is
      documented to stay below. */
  lemma JitterReachesTheBackoff(d: int)
    requires d > 0
    ensures (exists draw :: Draws(draw) && Jittered(d, true, 0, draw) == d) <==> d % 2 == 0
  {
    var half := d / 2;
    if d % 2 == 0 {
      var top := (k: nat, n: int) => n - 1;
      assert Draws(top) && Jittered(d, true, 0, top) == d;
    } else {
      forall draw: (nat, int) -> int | Draws(draw) ensures Jittered(d, true, 0, draw) != d {
        assert draw(0, half + 1) < half + 1;
      }
    }
  }

  /** The surroundings decide everything: there is one way a call of Do can go. */
  lemma OneOutcome(
    c: RetryConfig, w: World, r: Result, n: nat, sleeps: seq<int>, r': Result, n': nat, sleeps': seq<int>)
    requires Ran(c, w, r, n, sleeps) && Ran(c, w, r', n', sleeps')
    ensures n == n' && r == r' && sleeps == sleeps'
  {
    NotEarlier(c, w, r, n, sleeps, r', n', sleeps');
    NotEarlier(c, w, r', n', sleeps', r, n, sleeps);
    SameEnd(c, w, r, n, sleeps, r', sleeps');
  }

  lemma NotEarlier(
    c: RetryConfig, w: World, r: Result, n: nat, sleeps: seq<int>, r': Result, n': nat, sleeps': seq<int>)
    requires Ran(c, w, r, n, sleeps) && Ran(c, w, r', n', sleeps')
    ensures n >= n'
  {
    if n > 0 {
      var last: nat := n - 1;
      assert n < n' ==> Retries(c, w.attempt(last)) && !w.endsDuringSleep(n);
    }
  }

  lemma SameEnd(c: RetryConfig, w: World, r: Result, n: nat, sleeps: seq<int>, r': Result, sleeps': seq<int>)
    requires Ran(c, w, r, n, sleeps) && Ran(c, w, r', n, sleeps')
    ensures r == r' && sleeps == sleeps'
  {
    assert n > 0 ==> (|sleeps| == n <==> |sleeps'| == n);
    assert forall k :: 0 <= k < |sleeps| ==> sleeps[k] == sleeps'[k];
  }

  /** x times m, k times over. */
  function Grown(x: int, m: nat, k: nat): int {
    if k == 0 then x else Grown(x, m, k - 1) * m
  }

  /** The backoff grows by the factor until the cap: for a whole factor the k-th nominal
      backoff is the initial one multiplied k times, or the cap if that is less. */
  lemma {:induction false} NominalGrows(s: Settings, m: nat, k: nat)
    requires m >= 1 && s.multiplier == m as real && s.initial > 0 && s.maxBackoff > 0
    ensures Nominal(Configure(s), 0) == s.initial
    ensures k > 0 ==> Nominal(Configure(s), k) == Min(Grown(s.initial, m, k), s.maxBackoff)
  {
    if k > 0 {
      NominalGrows(s, m, k - 1);
      NominalStep(s, m, k);
      CapStays(Grown(s.initial, m, k - 1), s.maxBackoff, m);
    }
  }

  lemma NominalStep(s: Settings, m: nat, k: nat)
    requires m >= 1 && s.multiplier == m as real && s.initial > 0 && s.maxBackoff > 0 && k > 0
    ensures Nominal(Configure(s), k) == Min(Nominal(Configure(s), k - 1) * m, s.maxBackoff)
  {
    var c, d := Configure(s), Nominal(Configure(s), k - 1);
    GrowsTimes(s.multiplier, d, m);
    assert c.grow == ByMultiplier(s.multiplier);
    assert c.grow(d) == d * m;
  }

  lemma GrowsTimes(multiplier: real, d: int, m: nat)
    requires m >= 1 && multiplier == m as real
    ensures ByMultiplier(multiplier)(d) == d * m
  {
    Scales(d, m);
  }

  lemma Scales(d: int, m: nat)
    ensures Truncate(d as real * m as real) == d * m
  {
    assert (d * m) as real == d as real * m as real;
  }

  lemma CapStays(x: int, cap: int, m: nat)
    requires m >= 1 && cap > 0
    ensures Min(Min(x, cap) * m, cap) == Min(x * m, cap)
  {
    if x >= cap {
      TimesAtLeast(cap, cap, m);
      TimesAtLeast(x, cap, m);
    }
  }

  lemma TimesAtLeast(x: int, cap: int, m: nat)
    requires m >= 1 && x >= cap > 0
    ensures x * m >= cap
  {
  }
}
