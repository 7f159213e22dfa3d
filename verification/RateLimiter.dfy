/** The token bucket that throttles a provider's requests.

Time is read while the mutex is held, so the attempts of all callers, whether
through Allow or through the loop of Wait, form one sequence of refill-and-take
attempts at non-decreasing times. Tokens and seconds are reals. */
module RateLimiter {
  const DEFAULT_RPS := 30

  datatype Bucket = Bucket(rate: real, burst: real, tokens: real, lastTime: real) {
    predicate Valid() {
      rate > 0.0 && burst >= 1.0 && 0.0 <= tokens <= burst
    }
  }

  type GoodBucket = b: Bucket | b.Valid() witness Bucket(1.0, 1.0, 1.0, 0.0)

  /** The configured bucket, full, at its creation time. */
  function NewBucket(rps: int, burstSize: int, now: real): (b: GoodBucket)
    ensures b.tokens == b.burst && b.lastTime == now
    ensures b.rate == if rps > 0 then rps as real else DEFAULT_RPS as real
    ensures b.burst == if burstSize > 0 then burstSize as real else 2.0 * b.rate
  {
    var r := if rps <= 0 then DEFAULT_RPS else rps;
    var burst := if burstSize <= 0 then r * 2 else burstSize;
    Bucket(r as real, burst as real, burst as real, now)
  }

  function Refill(b: GoodBucket, now: real): (r: GoodBucket)
    ensures r.rate == b.rate && r.burst == b.burst
  {
    if now - b.lastTime > 0.0 then
      assert (now - b.lastTime) * b.rate >= 0.0;
      var t := b.tokens + (now - b.lastTime) * b.rate;
      b.(tokens := if t > b.burst then b.burst else t, lastTime := now)
    else b
  }

  /** One attempt: refill, then take a token if there is one. */
  function Attempt(b: GoodBucket, now: real): (r: (GoodBucket, bool))
    ensures r.0.rate == b.rate && r.0.burst == b.burst
  {
    var f := Refill(b, now);
    if f.tokens < 1.0 then (f, false) else (f.(tokens := f.tokens - 1.0), true)
  }

  /** The decisions of a run of attempts at the given times, whatever one attempt does. */
  function Run<S>(attempt: (S, real) -> (S, bool), s: S, times: seq<real>): (ds: seq<bool>)
    ensures |ds| == |times|
    decreases |times|
  {
    if times == [] then []
    else
      var (s', ok) := attempt(s, times[0]);
      [ok] + Run(attempt, s', times[1..])
  }

  /** The decisions of the limiter. */
  function Decisions(b: GoodBucket, times: seq<real>): (ds: seq<bool>)
    ensures |ds| == |times|
  {
    Run(Attempt, b, times)
  }

  datatype WaitResult<+S> = WaitResult(bucket: S, granted: bool, attempts: nat)

  /** Wait's loop over the clock readings of its passes: attempts until one is
      granted, or until the readings (and with them the context) end. */
  function WaitRun<S>(attempt: (S, real) -> (S, bool), s: S, clock: seq<real>): (r: WaitResult<S>)
    ensures r.attempts <= |clock|
    decreases |clock|
  {
    if clock == [] then WaitResult(s, false, 0)
    else
      var (s', ok) := attempt(s, clock[0]);
      if ok then WaitResult(s', true, 1)
      else
        var r := WaitRun(attempt, s', clock[1..]);
        r.(attempts := r.attempts + 1)
  }

  /** The index after the first granted decision, or the number of decisions. */
  function FirstGrant(ds: seq<bool>): (n: nat)
    ensures n <= |ds|
    ensures forall i :: 0 <= i < n - 1 ==> !ds[i]
    ensures n < |ds| ==> n > 0 && ds[n - 1]
    ensures true in ds <==> n > 0 && ds[n - 1]
  {
    if ds == [] then 0 else if ds[0] then 1 else 1 + FirstGrant(ds[1..])
  }

  /** Wait makes attempts up to and including the first that is granted. */
  lemma {:induction false} WaitTakesTheFirstGrant<S>(attempt: (S, real) -> (S, bool), s: S, clock: seq<real>)
    ensures var r := WaitRun(attempt, s, clock); var ds := Run(attempt, s, clock);
      r.attempts == FirstGrant(ds) && (r.granted <==> true in ds)
    decreases |clock|
  {
    if clock != [] {
      var (s', ok) := attempt(s, clock[0]);
      WaitTakesTheFirstGrant(attempt, s', clock[1..]);
      var ds := Run(attempt, s, clock);
      assert ds[0] == ok && ds[1..] == Run(attempt, s', clock[1..]);
      assert ds == [ok] + ds[1..];
    }
  }

  class Limiter {
    var bucket: GoodBucket

    constructor (rps: int, burstSize: int, now: real)
      ensures bucket == NewBucket(rps, burstSize, now)
    {
      bucket := NewBucket(rps, burstSize, now);
    }

    method Allow(now: real) returns (ok: bool)
      modifies this
      ensures (bucket, ok) == Attempt(old(bucket), now)
    {
      bucket := Refill(bucket, now);
      if bucket.tokens < 1.0 {
        return false;
      }
      bucket := bucket.(tokens := bucket.tokens - 1.0);
      return true;
    }

    /** `clock` holds what the clock reads at each pass; the context ends during the
        sleep after the last of them. */
    method Wait(clock: seq<real>) returns (granted: bool, attempts: nat, delays: seq<real>)
      modifies this
      ensures WaitResult(bucket, granted, attempts) == WaitRun(Attempt, old(bucket), clock)
      ensures delays == WaitDelays(old(bucket), clock)
    {
      attempts, delays := 0, [];
      ghost var whole := WaitRun(Attempt, bucket, clock);
      while attempts < |clock|
        invariant attempts <= |clock|
        invariant var rest := WaitRun(Attempt, bucket, clock[attempts..]);
          whole == rest.(attempts := rest.attempts + attempts)
        invariant delays + WaitDelays(bucket, clock[attempts..]) == WaitDelays(old(bucket), clock)
      {
        assert clock[attempts..][1..] == clock[attempts + 1..];
        var ok := Allow(clock[attempts]);
        attempts := attempts + 1;
        if ok {
          return true, attempts, delays;
        }
        delays := delays + [Delay(bucket)];
      }
      return false, attempts, delays;
    }
  }

  /** A delay in whole nanoseconds, as the conversion to a duration leaves it. */
  function WholeNanoseconds(seconds: real): real {
    (seconds * 1_000_000_000.0).Floor as real / 1_000_000_000.0
  }

  /** How long Wait sleeps after a failed attempt. */
  function Delay(b: GoodBucket): real {
    WholeNanoseconds((1.0 - b.tokens) / b.rate)
  }

  /** The sleeps of a Wait, one after each failed attempt. */
  function WaitDelays(b: GoodBucket, clock: seq<real>): seq<real>
    decreases |clock|
  {
    if clock == [] then []
    else
      var (b', ok) := Attempt(b, clock[0]);
      if ok then [] else [Delay(b')] + WaitDelays(b', clock[1..])
  }

  // ----------------------------------------------- the same bucket, rate one

  /** A bucket that earns one token per unit of its clock. Running the limiter is
      running this one on a clock scaled by the rate. */
  datatype Tank = Tank(cap: real, level: real, clock: real) {
    predicate Valid() { cap >= 1.0 && 0.0 <= level <= cap }
  }

  type GoodTank = t: Tank | t.Valid() witness Tank(1.0, 1.0, 0.0)

  function Fill(t: GoodTank, now: real): (r: GoodTank)
    ensures r.cap == t.cap
  {
    if now > t.clock then
      var due := t.level + (now - t.clock);
      Tank(t.cap, if due > t.cap then t.cap else due, now)
    else t
  }

  function Try(t: GoodTank, now: real): (r: (GoodTank, bool))
    ensures r.0.cap == t.cap
  {
    var f := Fill(t, now);
    if f.level < 1.0 then (f, false) else (f.(level := f.level - 1.0), true)
  }

  function TankDecisions(t: GoodTank, clock: seq<real>): (ds: seq<bool>)
    ensures |ds| == |clock|
  {
    Run(Try, t, clock)
  }

  function ToTank(b: GoodBucket): GoodTank {
    Tank(b.burst, b.tokens, b.rate * b.lastTime)
  }

  function Scaled(rate: real, times: seq<real>): (clock: seq<real>)
    ensures |clock| == |times|
  {
    if times == [] then [] else [rate * times[0]] + Scaled(rate, times[1..])
  }

  lemma {:induction false} ScaledAt(rate: real, times: seq<real>, i: nat)
    requires i < |times|
    ensures Scaled(rate, times)[i] == rate * times[i]
  {
    if i > 0 {
      ScaledAt(rate, times[1..], i - 1);
    }
  }

  lemma ScaledOrder(rate: real, a: real, b: real)
    requires rate > 0.0
    ensures a <= b <==> rate * a <= rate * b
    ensures (b - a) * rate == rate * b - rate * a
  {
  }

  lemma RefillScales(b: GoodBucket, now: real)
    ensures ToTank(Refill(b, now)) == Fill(ToTank(b), b.rate * now)
  {
    ScaledOrder(b.rate, now, b.lastTime);
    ScaledOrder(b.rate, b.lastTime, now);
  }

  lemma AttemptScales(b: GoodBucket, now: real)
    ensures ToTank(Attempt(b, now).0) == Try(ToTank(b), b.rate * now).0
    ensures Attempt(b, now).1 == Try(ToTank(b), b.rate * now).1
  {
    RefillScales(b, now);
  }

  /** Two machines that stay related decide alike. */
  lemma {:induction false} Simulation<S(!new), T(!new)>(
    f: (S, real) -> (S, bool), g: (T, real) -> (T, bool), related: (S, T) -> bool,
    s: S, t: T, times: seq<real>, clock: seq<real>)
    requires |times| == |clock| && related(s, t)
    requires forall x, y, i :: 0 <= i < |times| && related(x, y) ==>
      related(f(x, times[i]).0, g(y, clock[i]).0) && f(x, times[i]).1 == g(y, clock[i]).1
    ensures Run(f, s, times) == Run(g, t, clock)
    decreases |times|
  {
    if times != [] {
      var s', t' := f(s, times[0]).0, g(t, clock[0]).0;
      assert related(s', t');
      assert forall x, y, i :: 0 <= i < |times[1..]| && related(x, y) ==>
        related(f(x, times[1..][i]).0, g(y, clock[1..][i]).0) && f(x, times[1..][i]).1 == g(y, clock[1..][i]).1 by {
        assert forall i :: 0 <= i < |times[1..]| ==> times[1..][i] == times[i + 1] && clock[1..][i] == clock[i + 1];
      }
      Simulation(f, g, related, s', t', times[1..], clock[1..]);
    }
  }

  predicate Mirrors(rate: real, b: GoodBucket, t: GoodTank) {
    b.rate == rate && t == ToTank(b)
  }

  lemma {:induction false} StepMirrors(rate: real, b: GoodBucket, t: GoodTank, times: seq<real>, i: nat)
    requires i < |times| && Mirrors(rate, b, t)
    ensures var now := Scaled(rate, times)[i];
      Mirrors(rate, Attempt(b, times[i]).0, Try(t, now).0) && Attempt(b, times[i]).1 == Try(t, now).1
  {
    ScaledAt(rate, times, i);
    MirrorStep(rate, b, t, times[i], Scaled(rate, times)[i]);
  }

  lemma MirrorStep(rate: real, b: GoodBucket, t: GoodTank, now: real, scaled: real)
    requires Mirrors(rate, b, t) && scaled == rate * now
    ensures Mirrors(rate, Attempt(b, now).0, Try(t, scaled).0) && Attempt(b, now).1 == Try(t, scaled).1
  {
    AttemptScales(b, now);
  }

  lemma DecisionsScale(b: GoodBucket, times: seq<real>)
    ensures Decisions(b, times) == TankDecisions(ToTank(b), Scaled(b.rate, times))
  {
    var rate, clock := b.rate, Scaled(b.rate, times);
    var related := (x: GoodBucket, y: GoodTank) => Mirrors(rate, x, y);
    forall x: GoodBucket, y: GoodTank, i | 0 <= i < |times| && related(x, y)
      ensures related(Attempt(x, times[i]).0, Try(y, clock[i]).0) && Attempt(x, times[i]).1 == Try(y, clock[i]).1
    {
      StepMirrors(rate, x, y, times, i);
    }
    Simulation(Attempt, Try, related, b, ToTank(b), times, clock);
  }

  // ------------------------------------------------------------------ exactness

  ghost predicate Ascending(start: real, times: seq<real>) {
    && (forall i :: 0 <= i < |times| ==> start <= times[i])
    && (forall i, j :: 0 <= i <= j < |times| ==> times[i] <= times[j])
  }

  /** Grants among attempts i, ..., j - 1. */
  function Grants(ds: seq<bool>, i: nat, j: nat): nat
    requires i <= j <= |ds|
    decreases j - i
  {
    if i == j then 0 else Grants(ds, i, j - 1) + (if ds[j - 1] then 1 else 0)
  }

  /** The rate contract: any window of attempts grants at most a burst plus what the
      window's duration earns. */
  ghost predicate Conforms(rate: real, burst: real, times: seq<real>, ds: seq<bool>) {
    && |ds| == |times|
    && forall i, j :: 0 <= i < j <= |times| ==> Grants(ds, i, j) as real <= burst + rate * (times[j - 1] - times[i])
  }

  /** The same contract on a scaled clock. */
  ghost predicate TankConforms(cap: real, clock: seq<real>, ds: seq<bool>) {
    && |ds| == |clock|
    && forall i, j :: 0 <= i < j <= |clock| ==> Grants(ds, i, j) as real <= cap + (clock[j - 1] - clock[i])
  }

  lemma ScaledSpan(rate: real, times: seq<real>, i: nat, j: nat)
    requires i <= j < |times|
    ensures rate * (times[j] - times[i]) == Scaled(rate, times)[j] - Scaled(rate, times)[i]
  {
    ScaledAt(rate, times, i);
    ScaledAt(rate, times, j);
  }

  lemma ConformsScales(rate: real, burst: real, times: seq<real>, ds: seq<bool>)
    ensures Conforms(rate, burst, times, ds) <==> TankConforms(burst, Scaled(rate, times), ds)
  {
    var clock := Scaled(rate, times);
    if |ds| == |times| {
      forall i, j | 0 <= i < j <= |times|
        ensures Grants(ds, i, j) as real <= burst + rate * (times[j - 1] - times[i])
           <==> Grants(ds, i, j) as real <= burst + (clock[j - 1] - clock[i])
      {
        ScaledSpan(rate, times, i, j - 1);
      }
    }
  }

  lemma ScaledAscends(rate: real, times: seq<real>, a: real, i: nat)
    requires rate > 0.0 && i < |times| && a <= times[i]
    ensures rate * a <= Scaled(rate, times)[i]
  {
    ScaledAt(rate, times, i);
    ScaledOrder(rate, a, times[i]);
  }

  lemma AscendingScales(rate: real, start: real, times: seq<real>)
    requires rate > 0.0 && Ascending(start, times)
    ensures Ascending(rate * start, Scaled(rate, times))
  {
    var clock := Scaled(rate, times);
    forall i | 0 <= i < |clock| ensures rate * start <= clock[i] {
      ScaledAscends(rate, times, start, i);
    }
    forall i, j | 0 <= i <= j < |clock| ensures clock[i] <= clock[j] {
      ScaledAt(rate, times, i);
      ScaledAscends(rate, times, times[i], j);
    }
  }

  /** The tank after the first i attempts, and just before attempt i takes its token. */
  function TankAfter(t: GoodTank, clock: seq<real>, i: nat): (r: GoodTank)
    requires i <= |clock|
    ensures r.cap == t.cap
  {
    if i == 0 then t else Try(TankAfter(t, clock, i - 1), clock[i - 1]).0
  }

  function Filled(t: GoodTank, clock: seq<real>, i: nat): (r: GoodTank)
    requires i < |clock|
    ensures r.cap == t.cap
  {
    Fill(TankAfter(t, clock, i), clock[i])
  }

  lemma {:induction false} AfterShift(t: GoodTank, clock: seq<real>, i: nat)
    requires i < |clock|
    ensures TankAfter(t, clock, i + 1) == TankAfter(Try(t, clock[0]).0, clock[1..], i)
  {
    if i > 0 {
      AfterShift(t, clock, i - 1);
    }
  }

  lemma {:induction false} DecisionAt(t: GoodTank, clock: seq<real>, i: nat)
    requires i < |clock|
    ensures TankDecisions(t, clock)[i] <==> Filled(t, clock, i).level >= 1.0
    decreases i
  {
    if i > 0 {
      DecisionAt(Try(t, clock[0]).0, clock[1..], i - 1);
      AfterShift(t, clock, i - 1);
    }
  }

  lemma {:induction false} ClockAt(t: GoodTank, clock: seq<real>, i: nat)
    requires Ascending(t.clock, clock) && i < |clock|
    ensures Filled(t, clock, i).clock == clock[i]
  {
    if i > 0 {
      ClockAt(t, clock, i - 1);
    }
  }

  /** From one attempt to the next: spend, then earn up to the cap. */
  lemma NextFilled(t: GoodTank, clock: seq<real>, i: nat)
    requires Ascending(t.clock, clock) && i + 1 < |clock|
    ensures var spent := if TankDecisions(t, clock)[i] then 1.0 else 0.0;
      var due := Filled(t, clock, i).level - spent + (clock[i + 1] - clock[i]);
      Filled(t, clock, i + 1).level == if due > t.cap then t.cap else due
  {
    DecisionAt(t, clock, i);
    ClockAt(t, clock, i);
  }

  /** The level at attempt j plus the grants since attempt i never exceed the level
      at attempt i plus what the window earned. */
  lemma {:induction false} WindowBalance(t: GoodTank, clock: seq<real>, i: nat, j: nat)
    requires Ascending(t.clock, clock) && i <= j < |clock|
    ensures Filled(t, clock, j).level + Grants(TankDecisions(t, clock), i, j) as real
         <= Filled(t, clock, i).level + (clock[j] - clock[i])
    decreases j
  {
    if i < j {
      WindowBalance(t, clock, i, j - 1);
      NextFilled(t, clock, j - 1);
    }
  }

  lemma TankConformsToCap(t: GoodTank, clock: seq<real>)
    requires Ascending(t.clock, clock)
    ensures TankConforms(t.cap, clock, TankDecisions(t, clock))
  {
    var ds := TankDecisions(t, clock);
    forall i, j | 0 <= i < j <= |clock| ensures Grants(ds, i, j) as real <= t.cap + (clock[j - 1] - clock[i]) {
      WindowBalance(t, clock, i, j - 1);
      DecisionAt(t, clock, j - 1);
    }
  }

  /** When the tank starts full there is always a last attempt that found it full,
      and since then nothing was lost to the cap. */
  lemma {:induction false} LastFull(t: GoodTank, clock: seq<real>, j: nat) returns (i: nat)
    requires t.level == t.cap && Ascending(t.clock, clock) && j < |clock|
    ensures i <= j
    ensures Filled(t, clock, j).level + Grants(TankDecisions(t, clock), i, j) as real == t.cap + (clock[j] - clock[i])
  {
    if j == 0 {
      return 0;
    }
    i := LastFull(t, clock, j - 1);
    NextFilled(t, clock, j - 1);
    if Filled(t, clock, j).level == t.cap {
      return j;
    }
  }

  lemma {:induction false} GrantsSplit(ds: seq<bool>, i: nat, j: nat, k: nat)
    requires i <= j <= k <= |ds|
    ensures Grants(ds, i, k) == Grants(ds, i, j) + Grants(ds, j, k)
    decreases k
  {
    if j < k {
      GrantsSplit(ds, i, j, k - 1);
    }
  }

  lemma {:induction false} TankIsGreedyOptimal(t: GoodTank, clock: seq<real>, other: seq<bool>, k: nat)
    requires t.level == t.cap && Ascending(t.clock, clock)
    requires TankConforms(t.cap, clock, other) && k <= |clock|
    ensures Grants(other, 0, k) <= Grants(TankDecisions(t, clock), 0, k)
    decreases k
  {
    if k > 0 {
      var ds, j := TankDecisions(t, clock), k - 1;
      DecisionAt(t, clock, j);
      if ds[j] {
        TankIsGreedyOptimal(t, clock, other, j);
      } else {
        var i := LastFull(t, clock, j);
        assert Grants(other, i, k) as real <= t.cap + (clock[j] - clock[i]);
        TankIsGreedyOptimal(t, clock, other, i);
        GrantsSplit(ds, 0, i, j);
        GrantsSplit(other, 0, i, k);
      }
    }
  }

  /** Soundness: no window of attempts is granted more than the contract allows. */
  lemma LimiterConforms(b: GoodBucket, times: seq<real>)
    requires Ascending(b.lastTime, times)
    ensures Conforms(b.rate, b.burst, times, Decisions(b, times))
  {
    AscendingScales(b.rate, b.lastTime, times);
    TankConformsToCap(ToTank(b), Scaled(b.rate, times));
    DecisionsScale(b, times);
    ConformsScales(b.rate, b.burst, times, Decisions(b, times));
  }

  /** Optimality: from a full bucket, no other sequence of decisions that keeps the
      contract has granted more at any point. */
  lemma LimiterIsOptimal(b: GoodBucket, times: seq<real>, other: seq<bool>, k: nat)
    requires b.tokens == b.burst && Ascending(b.lastTime, times)
    requires Conforms(b.rate, b.burst, times, other) && k <= |times|
    ensures Grants(other, 0, k) <= Grants(Decisions(b, times), 0, k)
  {
    AscendingScales(b.rate, b.lastTime, times);
    ConformsScales(b.rate, b.burst, times, other);
    TankIsGreedyOptimal(ToTank(b), Scaled(b.rate, times), other, k);
    DecisionsScale(b, times);
  }

  /** The delay Wait computes is long enough: with no attempt in between, the next
      one is granted. */
  lemma DelaySuffices(b: GoodBucket, now: real)
    requires b.lastTime <= now && !Attempt(b, now).1
    ensures var f := Refill(b, now); Attempt(Attempt(b, now).0, now + (1.0 - f.tokens) / b.rate).1
  {
    var f := Refill(b, now);
    var delay := (1.0 - f.tokens) / b.rate;
    assert delay > 0.0 && delay * b.rate == 1.0 - f.tokens;
  }

  lemma Truncation(x: real)
    ensures WholeNanoseconds(x) <= x < WholeNanoseconds(x) + 1.0 / 1_000_000_000.0
    ensures x >= 0.0 ==> WholeNanoseconds(x) >= 0.0
  {
  }

  lemma ProductOrder(rate: real, a: real, b: real)
    requires rate > 0.0
    ensures a < b <==> rate * a < rate * b
  {
  }

  lemma Shortfall(rate: real, level: real, delay: real, cut: real, unit: real)
    requires rate > 0.0 && rate * delay == 1.0 - level && cut <= delay < cut + unit
    ensures level + rate * cut >= 1.0 <==> cut == delay
    ensures level + rate * cut > 1.0 - rate * unit
  {
    ProductOrder(rate, cut, delay);
    ProductOrder(rate, delay, cut + unit);
    assert rate * (cut + unit) == rate * cut + rate * unit;
  }

  /** What the bucket holds after a sleep no longer than it needs. */
  lemma LevelAfter(f: GoodBucket, cut: real, delay: real)
    requires f.rate * delay == 1.0 - f.tokens && 0.0 <= cut <= delay
    ensures Refill(f, f.lastTime + cut).tokens == f.tokens + f.rate * cut
  {
    ProductOrder(f.rate, delay, cut);
    assert (f.lastTime + cut - f.lastTime) * f.rate == f.rate * cut;
  }

  /** A failed attempt leaves the refilled bucket, short of a token. */
  lemma FailedAttempt(b: GoodBucket, now: real)
    requires b.lastTime <= now && !Attempt(b, now).1
    ensures Attempt(b, now).0 == Refill(b, now) && Refill(b, now).lastTime == now && Refill(b, now).tokens < 1.0
  {
  }

  lemma Quotient(need: real, rate: real)
    requires rate > 0.0 && need > 0.0
    ensures rate * (need / rate) == need && need / rate > 0.0
  {
  }

  /** How much Wait's delay leaves missing from a token at the next attempt. */
  function Missing(b: GoodBucket): real {
    1.0 - Refill(b, b.lastTime + Delay(b)).tokens
  }

  /** The delay is cut to whole nanoseconds: the next attempt is then granted exactly
      when nothing was cut off, and otherwise the level is short of a token by less than
      a nanosecond's worth, so that Wait makes another pass. */
  lemma TruncatedDelayExactlyWhen(b: GoodBucket)
    requires b.tokens < 1.0
    ensures Missing(b) <= 0.0 <==> Delay(b) == (1.0 - b.tokens) / b.rate
    ensures Missing(b) < b.rate * (1.0 / 1_000_000_000.0)
    ensures Attempt(b, b.lastTime + Delay(b)).1 <==> Missing(b) <= 0.0
  {
    Quotient(1.0 - b.tokens, b.rate);
    var delay := (1.0 - b.tokens) / b.rate;
    Truncation(delay);
    LevelAfter(b, Delay(b), delay);
    Shortfall(b.rate, b.tokens, delay, Delay(b), 1.0 / 1_000_000_000.0);
  }

  // ------------------------------------------------ Allow and Wait taken together

  /** The state after attempts at the given times. */
  function After<S>(attempt: (S, real) -> (S, bool), s: S, times: seq<real>): S
    decreases |times|
  {
    if times == [] then s else After(attempt, attempt(s, times[0]).0, times[1..])
  }

  lemma {:induction false} RunJoins<S>(attempt: (S, real) -> (S, bool), s: S, a: seq<real>, b: seq<real>)
    ensures After(attempt, s, a + b) == After(attempt, After(attempt, s, a), b)
    ensures Run(attempt, s, a + b) == Run(attempt, s, a) + Run(attempt, After(attempt, s, a), b)
    decreases |a|
  {
    if a == [] {
      assert a + b == b;
    } else {
      assert (a + b)[1..] == a[1..] + b;
      RunJoins(attempt, attempt(s, a[0]).0, a[1..], b);
    }
  }

  /** A Wait is its attempts: it leaves what they leave, with the granted token taken. */
  lemma {:induction false} WaitIsItsAttempts<S>(attempt: (S, real) -> (S, bool), s: S, clock: seq<real>)
    ensures var r := WaitRun(attempt, s, clock);
      && r.bucket == After(attempt, s, clock[..r.attempts])
      && Trues(Run(attempt, s, clock[..r.attempts])) == (if r.granted then 1 else 0)
      && (!r.granted ==> r.attempts == |clock|)
    decreases |clock|
  {
    var r := WaitRun(attempt, s, clock);
    if clock != [] {
      var (s', ok) := attempt(s, clock[0]);
      if ok {
        assert clock[..1] == [clock[0]] && [clock[0]][1..] == [];
        assert Run(attempt, s, [clock[0]]) == [true] && [true][1..] == [];
      } else {
        var rest := WaitRun(attempt, s', clock[1..]);
        WaitIsItsAttempts(attempt, s', clock[1..]);
        assert clock[..r.attempts][1..] == clock[1..][..rest.attempts];
        assert Run(attempt, s, clock[..r.attempts]) == [false] + Run(attempt, s', clock[1..][..rest.attempts]);
        assert ([false] + Run(attempt, s', clock[1..][..rest.attempts]))[1..]
            == Run(attempt, s', clock[1..][..rest.attempts]);
      }
    }
  }

  /** What comes after a Wait is decided as if its attempts had been made one by one. */
  lemma WaitThenMore<S>(attempt: (S, real) -> (S, bool), s: S, clock: seq<real>, more: seq<real>)
    ensures var r := WaitRun(attempt, s, clock);
      Run(attempt, r.bucket, more) == Run(attempt, s, clock[..r.attempts] + more)[r.attempts..]
  {
    var r := WaitRun(attempt, s, clock);
    WaitIsItsAttempts(attempt, s, clock);
    RunJoins(attempt, s, clock[..r.attempts], more);
  }

  function Trues(ds: seq<bool>): nat {
    if ds == [] then 0 else (if ds[0] then 1 else 0) + Trues(ds[1..])
  }

  lemma {:induction false} TruesJoin(a: seq<bool>, b: seq<bool>)
    ensures Trues(a + b) == Trues(a) + Trues(b)
  {
    if a == [] {
      assert a + b == b;
    } else {
      assert (a + b)[1..] == a[1..] + b;
      TruesJoin(a[1..], b);
    }
  }

  lemma {:induction false} TruesAreGrants(ds: seq<bool>)
    ensures Trues(ds) == Grants(ds, 0, |ds|)
    decreases |ds|
  {
    if ds != [] {
      var n := |ds| - 1;
      TruesAreGrants(ds[..n]);
      TruesJoin(ds[..n], [ds[n]]);
      assert ds == ds[..n] + [ds[n]] && [ds[n]][1..] == [];
      GrantsOfPrefix(ds, n, n);
    }
  }

  lemma {:induction false} GrantsOfPrefix(ds: seq<bool>, n: nat, k: nat)
    requires k <= n <= |ds|
    ensures Grants(ds[..n], 0, k) == Grants(ds, 0, k)
    decreases k
  {
    if k > 0 {
      GrantsOfPrefix(ds, n, k - 1);
    }
  }

  /** A call of the limiter with what the clock reads during it. */
  datatype Call = Allowing(now: real) | Waiting(clock: seq<real>)

  /** The bucket after the calls, their answers, and the times of all their attempts. */
  datatype Served = Served(bucket: GoodBucket, answers: seq<bool>, times: seq<real>)

  function ServeOne(done: Served, call: Call): Served {
    match call
    case Allowing(now) =>
      var (b', ok) := Attempt(done.bucket, now);
      Served(b', done.answers + [ok], done.times + [now])
    case Waiting(clock) =>
      var r := WaitRun(Attempt, done.bucket, clock);
      Served(r.bucket, done.answers + [r.granted], done.times + clock[..r.attempts])
  }

  function Serve(b: GoodBucket, calls: seq<Call>): Served {
    if calls == [] then Served(b, [], [])
    else ServeOne(Serve(b, calls[..|calls| - 1]), calls[|calls| - 1])
  }

  /** Any sequence of Allow and Wait calls is one run of attempts: as many attempts are
      granted as calls are. */
  lemma {:induction false} CallsAreARun(b: GoodBucket, calls: seq<Call>)
    ensures var s := Serve(b, calls);
      s.bucket == After(Attempt, b, s.times) && Trues(s.answers) == Trues(Decisions(b, s.times))
    decreases |calls|
  {
    if calls != [] {
      var done, call := Serve(b, calls[..|calls| - 1]), calls[|calls| - 1];
      CallsAreARun(b, calls[..|calls| - 1]);
      match call
      case Allowing(now) =>
        AppendAttempts(b, done, [now], Attempt(done.bucket, now).1);
      case Waiting(clock) =>
        var r := WaitRun(Attempt, done.bucket, clock);
        WaitIsItsAttempts(Attempt, done.bucket, clock);
        AppendAttempts(b, done, clock[..r.attempts], r.granted);
    }
  }

  lemma AppendAttempts(b: GoodBucket, done: Served, more: seq<real>, ok: bool)
    requires done.bucket == After(Attempt, b, done.times)
    requires Trues(done.answers) == Trues(Decisions(b, done.times))
    requires Trues(Run(Attempt, done.bucket, more)) == (if ok then 1 else 0)
    ensures After(Attempt, done.bucket, more) == After(Attempt, b, done.times + more)
    ensures Trues(done.answers + [ok]) == Trues(Decisions(b, done.times + more))
  {
    RunJoins(Attempt, b, done.times, more);
    TruesJoin(Decisions(b, done.times), Run(Attempt, done.bucket, more));
    TruesJoin(done.answers, [ok]);
    assert [ok][1..] == [];
  }

  /** n grants are no more than a burst plus what the time from the first to the last
      attempt earns. */
  ghost predicate Within(rate: real, burst: real, times: seq<real>, n: nat) {
    times != [] ==> n as real <= burst + rate * (times[|times| - 1] - times[0])
  }

  lemma WholeWindow(rate: real, burst: real, times: seq<real>, ds: seq<bool>)
    requires Conforms(rate, burst, times, ds)
    ensures Within(rate, burst, times, Grants(ds, 0, |ds|))
  {
  }

  lemma DecisionsWithin(b: GoodBucket, times: seq<real>)
    requires Ascending(b.lastTime, times)
    ensures Within(b.rate, b.burst, times, Trues(Decisions(b, times)))
  {
    LimiterConforms(b, times);
    WholeWindow(b.rate, b.burst, times, Decisions(b, times));
    TruesAreGrants(Decisions(b, times));
  }

  /** The contract over any mix of Allow and Wait calls from any bucket: the calls granted
      never exceed a burst plus what the time from their first to their last attempt
      earns. */
  lemma CallsConform(b: GoodBucket, calls: seq<Call>)
    requires Ascending(b.lastTime, Serve(b, calls).times)
    ensures Within(b.rate, b.burst, Serve(b, calls).times, Trues(Serve(b, calls).answers))
  {
    CallsAreARun(b, calls);
    DecisionsWithin(b, Serve(b, calls).times);
  }

  /** What earlier attempts leave is again a bucket with the same contract, at a time no
      later than what follows. */
  lemma {:induction false} CallsKeepTheContract(b: GoodBucket, times: seq<real>, more: seq<real>)
    requires Ascending(b.lastTime, times + more)
    ensures var b' := After(Attempt, b, times);
      b'.rate == b.rate && b'.burst == b.burst && Ascending(b'.lastTime, more)
    decreases |times|
  {
    var all := times + more;
    if times == [] {
      assert all == more;
    } else {
      var b1 := Attempt(b, times[0]).0;
      assert all[0] == times[0] && forall i :: 0 <= i < |all[1..]| ==> all[1..][i] == all[i + 1];
      assert all[1..] == times[1..] + more;
      assert b1.lastTime == times[0];
      CallsKeepTheContract(b1, times[1..], more);
    }
  }

  function OnTop(s: Served, t: Served): Served {
    Served(t.bucket, s.answers + t.answers, s.times + t.times)
  }

  lemma ServesOnTop(s: Served, t: Served, call: Call)
    ensures ServeOne(OnTop(s, t), call) == OnTop(s, ServeOne(t, call))
  {
  }

  lemma {:induction false} ServeJoins(b: GoodBucket, first: seq<Call>, later: seq<Call>)
    ensures Serve(b, first + later) == OnTop(Serve(b, first), Serve(Serve(b, first).bucket, later))
    decreases |later|
  {
    if later == [] {
      assert first + later == first;
    } else {
      var front, last := later[..|later| - 1], later[|later| - 1];
      assert (first + later)[..|first + later| - 1] == first + front;
      ServeJoins(b, first, front);
      ServesOnTop(Serve(b, first), Serve(Serve(b, first).bucket, front), last);
    }
  }

  /** Served first, a later window of calls is served from a bucket of the same contract. */
  lemma WindowConforms(b: GoodBucket, before: seq<Call>, window: seq<Call>)
    requires Ascending(b.lastTime, Serve(b, before).times + Serve(Serve(b, before).bucket, window).times)
    ensures var t := Serve(Serve(b, before).bucket, window); Within(b.rate, b.burst, t.times, Trues(t.answers))
  {
    var s := Serve(b, before);
    CallsAreARun(b, before);
    CallsKeepTheContract(b, s.times, Serve(s.bucket, window).times);
    CallsConform(s.bucket, window);
  }

  lemma Rest<T>(a: seq<T>, b: seq<T>)
    ensures a <= a + b && (a + b)[|a|..] == b
  {
  }

  ghost predicate LaterConforms(rate: real, burst: real, earlier: Served, all: Served) {
    && earlier.answers <= all.answers && earlier.times <= all.times
    && Within(rate, burst, all.times[|earlier.times|..], Trues(all.answers[|earlier.answers|..]))
  }

  lemma JoinedConform(rate: real, burst: real, s: Served, t: Served)
    requires Within(rate, burst, t.times, Trues(t.answers))
    ensures LaterConforms(rate, burst, s, OnTop(s, t))
  {
    Rest(s.answers, t.answers);
    Rest(s.times, t.times);
  }

  /** So every window of a sequence of calls obeys the contract, whatever was called before. */
  lemma EveryWindowConforms(b: GoodBucket, before: seq<Call>, window: seq<Call>)
    requires Ascending(b.lastTime, Serve(b, before + window).times)
    ensures LaterConforms(b.rate, b.burst, Serve(b, before), Serve(b, before + window))
  {
    ServeJoins(b, before, window);
    WindowConforms(b, before, window);
    JoinedConform(b.rate, b.burst, Serve(b, before), Serve(Serve(b, before).bucket, window));
  }

  /** A Wait sleeps once after each failed attempt, for the delay its bucket then needs. */
  lemma {:induction false} DelaysFollowFailures(b: GoodBucket, clock: seq<real>, i: nat)
    ensures var r := WaitRun(Attempt, b, clock); |WaitDelays(b, clock)| == r.attempts - (if r.granted then 1 else 0)
    ensures i < |WaitDelays(b, clock)| ==>
      i < |clock| && WaitDelays(b, clock)[i] == Delay(After(Attempt, b, clock[..i + 1]))
    decreases |clock|
  {
    if clock != [] {
      var (b', ok) := Attempt(b, clock[0]);
      if !ok {
        DelaysFollowFailures(b', clock[1..], if i == 0 then 0 else i - 1);
        if i < |clock| {
          assert clock[..i + 1][1..] == clock[1..][..i];
        }
      }
    }
  }
}
