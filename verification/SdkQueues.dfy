/** What both SDK queues share: the admission of an item, the taking of a batch and the
    account of every item offered. */
module SdkBuffer {
  import opened Common

  datatype Options = Options(maxSize: int, batchSize: int, dropOldest: bool)

  predicate Sized(o: Options) { o.maxSize >= 1 && o.batchSize >= 1 }

  /** What a buffer holds, what overflow cost, and the batches taken so far. */
  datatype Buffer<T> = Buffer(items: seq<T>, lost: seq<T>, batches: seq<seq<T>>)

  predicate Overflows<T>(o: Options, b: Buffer<T>) { |b.items| >= o.maxSize }

  predicate Rejects<T>(o: Options, b: Buffer<T>) { Overflows(o, b) && !o.dropOldest }

  /** The overflow branch and the append. */
  function Admit<T>(o: Options, b: Buffer<T>, x: T): Buffer<T> {
    if !Overflows(o, b) then b.(items := b.items + [x])
    else if !o.dropOldest then b.(lost := b.lost + [x])
    else if b.items == [] then b.(items := [x])
    else b.(items := b.items[1..] + [x], lost := b.lost + [b.items[0]])
  }

  function BatchLength<T>(o: Options, b: Buffer<T>): nat {
    if o.batchSize < 0 then 0 else Min(|b.items|, o.batchSize)
  }

  /** One flush: nothing for an empty buffer. */
  function TakeBatch<T>(o: Options, b: Buffer<T>): Buffer<T> {
    if b.items == [] then b
    else
      var n := BatchLength(o, b);
      b.(items := b.items[n..], batches := b.batches + [b.items[..n]])
  }

  function Flat<T>(batches: seq<seq<T>>): seq<T> {
    if batches == [] then [] else Flat(batches[..|batches| - 1]) + batches[|batches| - 1]
  }

  /** Everything taken and everything held, in that order. */
  function Kept<T>(b: Buffer<T>): seq<T> {
    Flat(b.batches) + b.items
  }

  lemma FlatSnoc<T>(batches: seq<seq<T>>, last: seq<T>)
    ensures Flat(batches + [last]) == Flat(batches) + last
  {
    assert (batches + [last])[..|batches|] == batches;
  }

  /** What admission does: with room the item goes last; without, drop_newest loses it and
      drop_oldest loses the first one held instead. */
  lemma AdmitMeans<T>(o: Options, b: Buffer<T>, x: T)
    ensures var b' := Admit(o, b, x);
      && b'.batches == b.batches
      && (|b.items| < o.maxSize ==> b'.items == b.items + [x] && b'.lost == b.lost)
      && (|b.items| >= o.maxSize && !o.dropOldest ==> b'.items == b.items && b'.lost == b.lost + [x])
      && (|b.items| >= o.maxSize && o.dropOldest && b.items != [] ==>
            b'.items == b.items[1..] + [x] && b'.lost == b.lost + [b.items[0]])
  {
  }

  /** What a flush takes: the first batchSize items, or all there are. */
  lemma TakeMeans<T>(o: Options, b: Buffer<T>)
    requires o.batchSize >= 1 && b.items != []
    ensures var b' := TakeBatch(o, b);
      && b'.lost == b.lost && |b'.batches| == |b.batches| + 1 && b'.batches[..|b.batches|] == b.batches
      && b'.batches[|b.batches|] + b'.items == b.items
      && |b'.batches[|b.batches|]| == (if |b.items| < o.batchSize then |b.items| else o.batchSize)
  {
  }

  lemma TakeKeeps<T>(o: Options, b: Buffer<T>)
    ensures Kept(TakeBatch(o, b)) == Kept(b)
  {
    if b.items != [] {
      var n := BatchLength(o, b);
      FlatSnoc(b.batches, b.items[..n]);
      assert Flat(b.batches) + b.items[..n] + b.items[n..] == Flat(b.batches) + b.items;
    }
  }

  /** Batches of 1 to batchSize items were added. */
  ghost predicate MoreBatches<T>(o: Options, before: seq<seq<T>>, after: seq<seq<T>>) {
    before <= after && forall i :: |before| <= i < |after| ==> 1 <= |after[i]| <= o.batchSize
  }

  /** How many batches n items make. */
  function BatchCount(n: nat, batchSize: int): nat
    requires batchSize >= 1
  {
    if n == 0 then 0 else 1 + BatchCount(if n < batchSize then 0 else n - batchSize, batchSize)
  }

  /** Of the calls made so far none but possibly the last one failed. */
  ghost predicate OnlyLastFails(fails: nat -> bool, calls: int) {
    forall i :: 0 <= i < calls - 1 ==> !fails(i)
  }

  // -------------------------------------------------------------- accounting

  // A queue never looks at its items, so they are followed as tickets: the n-th item
  // offered is n.

  ghost predicate Increasing(s: seq<nat>) {
    forall i, j :: 0 <= i < j < |s| ==> s[i] < s[j]
  }

  /** Of the first n tickets each is exactly one of kept, in the order offered, and
      lost. */
  ghost predicate Accounted(n: nat, kept: seq<nat>, lost: seq<nat>) {
    && Increasing(kept) && Increasing(lost)
    && (forall t :: t in kept ==> t < n && t !in lost)
    && (forall t :: t in lost ==> t < n)
    && (forall t :: 0 <= t < n ==> t in kept || t in lost)
  }

  ghost predicate SizedBatches(o: Options, batches: seq<seq<nat>>) {
    forall i :: 0 <= i < |batches| ==> 1 <= |batches[i]| <= o.batchSize
  }

  /** With drop_oldest everything lost is older than everything held. */
  ghost predicate LossOrder(b: Buffer<nat>) {
    forall x, y :: x in b.lost && y in b.items ==> x < y
  }

  ghost predicate Sound(o: Options, n: nat, b: Buffer<nat>) {
    Accounted(n, Kept(b), b.lost) && SizedBatches(o, b.batches) && (o.dropOldest ==> LossOrder(b))
  }

  lemma IncreasingSnoc(s: seq<nat>, x: nat)
    requires Increasing(s) && forall t :: t in s ==> t < x
    ensures Increasing(s + [x])
  {
    assert forall i :: 0 <= i < |s| ==> s[i] in s;
  }

  lemma AccountPush(n: nat, kept: seq<nat>, lost: seq<nat>)
    requires Accounted(n, kept, lost)
    ensures Accounted(n + 1, kept + [n], lost)
  {
    IncreasingSnoc(kept, n);
  }

  lemma AccountReject(n: nat, kept: seq<nat>, lost: seq<nat>)
    requires Accounted(n, kept, lost)
    ensures Accounted(n + 1, kept, lost + [n])
  {
    IncreasingSnoc(lost, n);
  }

  lemma AccountEvict(n: nat, a: seq<nat>, x: nat, c: seq<nat>, lost: seq<nat>)
    requires Accounted(n, a + [x] + c, lost) && forall t :: t in lost ==> t < x
    ensures Accounted(n, a + c, lost + [x])
  {
    var kept := a + [x] + c;
    IncreasingSnoc(lost, x);
    assert kept[|a|] == x;
    assert forall i :: 0 <= i < |a| ==> a[i] == kept[i];
    assert forall i :: 0 <= i < |c| ==> c[i] == kept[|a| + 1 + i];
    assert x !in a + c;
    assert forall t :: t in kept <==> t == x || t in a + c;
  }

  lemma AdmitIsSound(o: Options, n: nat, b: Buffer<nat>)
    requires Sized(o) && Sound(o, n, b)
    ensures Sound(o, n + 1, Admit(o, b, n))
  {
    var flat := Flat(b.batches);
    if !Overflows(o, b) {
      AccountPush(n, Kept(b), b.lost);
      assert Kept(b) + [n] == flat + (b.items + [n]);
      LossBelow(n, b);
    } else if !o.dropOldest {
      AccountReject(n, Kept(b), b.lost);
    } else {
      var x, rest := b.items[0], b.items[1..];
      assert flat + [x] + rest == Kept(b);
      assert x in b.items && forall t :: t in b.lost ==> t < x;
      AccountEvict(n, flat, x, rest, b.lost);
      AccountPush(n, flat + rest, b.lost + [x]);
      assert flat + rest + [n] == flat + (rest + [n]);
      ItemsIncrease(n, b);
      EvictedIsOlder(n, b, x, rest);
    }
  }

  lemma LossBelow(n: nat, b: Buffer<nat>)
    requires Accounted(n, Kept(b), b.lost)
    ensures LossOrder(b) ==> LossOrder(b.(items := b.items + [n]))
  {
  }

  lemma ItemsIncrease(n: nat, b: Buffer<nat>)
    requires Accounted(n, Kept(b), b.lost)
    ensures Increasing(b.items) && forall y :: y in b.items ==> y < n
  {
    var k := |Flat(b.batches)|;
    assert forall j :: 0 <= j < |b.items| ==> b.items[j] == Kept(b)[k + j] && Kept(b)[k + j] in Kept(b);
  }

  lemma EvictedIsOlder(n: nat, b: Buffer<nat>, x: nat, rest: seq<nat>)
    requires LossOrder(b) && b.items == [x] + rest
    requires Increasing(b.items) && forall y :: y in b.items ==> y < n
    ensures LossOrder(b.(items := rest + [n], lost := b.lost + [x]))
  {
    assert b.items[0] == x && x in b.items;
    forall y | y in rest ensures y in b.items && x < y {
      var i :| 0 <= i < |rest| && rest[i] == y;
      assert b.items[i + 1] == y;
    }
  }

  lemma TakeKeepsSizes(o: Options, b: Buffer<nat>)
    requires Sized(o) && SizedBatches(o, b.batches)
    ensures SizedBatches(o, TakeBatch(o, b).batches)
  {
  }

  lemma TakeKeepsLossOrder(o: Options, b: Buffer<nat>)
    requires LossOrder(b)
    ensures LossOrder(TakeBatch(o, b))
  {
    var rest := TakeBatch(o, b).items;
    forall y | y in rest ensures y in b.items {
      if b.items != [] {
        var i :| 0 <= i < |rest| && rest[i] == y;
        assert b.items[BatchLength(o, b) + i] == y;
      }
    }
  }

  /** b' accounts for the items as b does. */
  ghost predicate SameAccount(o: Options, b: Buffer<nat>, b': Buffer<nat>) {
    && Kept(b') == Kept(b) && b'.lost == b.lost
    && (SizedBatches(o, b.batches) ==> SizedBatches(o, b'.batches))
    && (LossOrder(b) ==> LossOrder(b'))
  }

  lemma SameAccountIsSound(o: Options, n: nat, b: Buffer<nat>, b': Buffer<nat>)
    requires Sound(o, n, b) && SameAccount(o, b, b')
    ensures Sound(o, n, b')
  {
  }

  /** Taking a batch leaves the account as it is. */
  lemma TakeKeepsAccount(o: Options, b: Buffer<nat>)
    requires Sized(o)
    ensures SameAccount(o, b, TakeBatch(o, b))
  {
    TakeKeeps(o, b);
    if SizedBatches(o, b.batches) {
      TakeKeepsSizes(o, b);
    }
    if LossOrder(b) {
      TakeKeepsLossOrder(o, b);
    }
  }
}

/** The TypeScript SDK's queue. JavaScript runs one callback at a time, so enqueue is
    one step, and so is the part of flush before its await. */
module TypeScriptQueue {
  import opened Common
  import opened SdkBuffer

  /** enqueue, with the flush it starts. */
  function Enqueued<T>(o: Options, b: Buffer<T>, x: T): Buffer<T> {
    var b' := Admit(o, b, x);
    if Rejects(o, b) || |b'.items| < o.batchSize then b' else TakeBatch(o, b')
  }

  /** What an enqueue does: a rejected item changes nothing else; otherwise a full batch is
      taken at once and anything less waits. */
  lemma EnqueuedMeans<T>(o: Options, b: Buffer<T>, x: T)
    ensures var b', admitted := Enqueued(o, b, x), Admit(o, b, x);
      && (|b.items| >= o.maxSize && !o.dropOldest ==> b' == admitted)
      && (!(|b.items| >= o.maxSize && !o.dropOldest) ==>
            b' == if |admitted.items| >= o.batchSize then TakeBatch(o, admitted) else admitted)
  {
  }

  class EventQueue<T> {
    const o: Options
    var items: seq<T>
    ghost var lost: seq<T>
    ghost var batches: seq<seq<T>>

    ghost function View(): Buffer<T> reads this { Buffer(items, lost, batches) }

    constructor (o: Options)
      ensures this.o == o && View() == Buffer([], [], [])
    {
      this.o := o;
      items, lost, batches := [], [], [];
    }

    method Enqueue(item: T)
      modifies this
      ensures View() == Enqueued(o, old(View()), item)
    {
      if |items| >= o.maxSize {
        if o.dropOldest {
          if |items| > 0 {
            lost := lost + [items[0]];
            items := items[1..];
          }
        } else {
          lost := lost + [item];
          return;
        }
      }
      items := items + [item];
      assert View() == Admit(o, old(View()), item);
      if |items| >= o.batchSize {
        var _ := Flush();
      }
    }

    method Flush() returns (batch: seq<T>)
      modifies this
      ensures View() == TakeBatch(o, old(View()))
      ensures batch == if old(items) == [] then [] else batches[|batches| - 1]
    {
      if |items| == 0 {
        return [];
      }
      var n := if o.batchSize < 0 then 0 else Min(|items|, o.batchSize);
      batch := items[..n];
      items := items[n..];
      batches := batches + [batch];
    }

    /** With nothing arriving meanwhile. `fails(i)` is whether the i-th callback rejects,
        which ends the loop. What was handed over is a prefix, in order and in batches of
        at most batchSize; it is everything if and only if no callback before the one for
        the last batch fails. */
    method FlushAll(fails: nat -> bool) returns (ok: bool)
      requires o.batchSize >= 1
      modifies this
      ensures lost == old(lost) && Kept(View()) == old(Kept(View()))
      ensures MoreBatches(o, old(batches), batches)
      ensures OnlyLastFails(fails, |batches| - |old(batches)|)
      ensures ok <==> items == [] && forall i :: 0 <= i < BatchCount(old(|items|), o.batchSize) ==> !fails(i)
      ensures items == [] <==> forall i :: 0 <= i < BatchCount(old(|items|), o.batchSize) - 1 ==> !fails(i)
    {
      var calls := 0;
      while |items| > 0
        invariant lost == old(lost) && Kept(View()) == old(Kept(View()))
        invariant MoreBatches(o, old(batches), batches) && |batches| == |old(batches)| + calls
        invariant calls + BatchCount(|items|, o.batchSize) == BatchCount(old(|items|), o.batchSize)
        invariant forall i :: 0 <= i < calls ==> !fails(i)
        decreases |items|
      {
        TakeKeeps(o, View());
        var _ := Flush();
        calls := calls + 1;
        if fails(calls - 1) {
          return false;
        }
      }
      ok := true;
    }
  }

  /** A batch size below one makes no progress: flushAll of a non-empty queue would not
      end. */
  lemma NoBatchNoProgress<T>(o: Options, b: Buffer<T>)
    requires b.items != []
    ensures o.batchSize < 1 ==> TakeBatch(o, b).items == b.items
    ensures o.batchSize >= 1 ==> |TakeBatch(o, b).items| < |b.items|
  {
    assert b.items[0..] == b.items;
  }

  // -------------------------------------------------------------------- runs

  /** What can run next: an enqueue, or one turn of any flush, timer or shutdown. */
  datatype Step = Enqueue | Flush

  datatype State = State(offered: nat, b: Buffer<nat>)

  const INIT := State(0, Buffer([], [], []))

  function Apply(o: Options, s: State, step: Step): State {
    match step
    case Enqueue => State(s.offered + 1, Enqueued(o, s.b, s.offered))
    case Flush => State(s.offered, TakeBatch(o, s.b))
  }

  function Run(o: Options, steps: seq<Step>): State {
    if steps == [] then INIT else Apply(o, Run(o, steps[..|steps| - 1]), steps[|steps| - 1])
  }

  /** In every run: nothing is lost except by overflow, order is kept, and batches are
      within bounds. */
  lemma {:induction false} RunIsSound(o: Options, steps: seq<Step>)
    requires Sized(o)
    ensures Sound(o, Run(o, steps).offered, Run(o, steps).b)
  {
    if steps != [] {
      var n := |steps| - 1;
      RunIsSound(o, steps[..n]);
      var s := Run(o, steps[..n]);
      if steps[n] == Enqueue {
        AdmitIsSound(o, s.offered, s.b);
        TakeKeepsAccount(o, Admit(o, s.b, s.offered));
        SameAccountIsSound(o, s.offered + 1, Admit(o, s.b, s.offered), TakeBatch(o, Admit(o, s.b, s.offered)));
      } else {
        TakeKeepsAccount(o, s.b);
        SameAccountIsSound(o, s.offered, s.b, TakeBatch(o, s.b));
      }
    }
  }

  /** Between steps fewer than batchSize items wait. */
  lemma {:induction false} FewerThanABatchWait(o: Options, steps: seq<Step>)
    requires Sized(o)
    ensures |Run(o, steps).b.items| < o.batchSize
  {
    if steps != [] {
      FewerThanABatchWait(o, steps[..|steps| - 1]);
    }
  }

  /** n enqueues in a row. */
  function Burst(n: nat): seq<Step> { seq(n, _ => Enqueue) }

  lemma {:induction false} BurstFills(o: Options, n: nat)
    requires Sized(o) && n <= o.maxSize && n < o.batchSize
    ensures |Run(o, Burst(n)).b.items| == n
  {
    if n > 0 {
      assert Burst(n)[..n - 1] == Burst(n - 1);
      BurstFills(o, n - 1);
    }
  }

  /** The overflow branch is dead code exactly when a batch fits in the buffer. */
  lemma OverflowReachableExactlyWhen(o: Options)
    requires Sized(o)
    ensures (exists steps :: Overflows(o, Run(o, steps).b)) <==> o.maxSize < o.batchSize
  {
    forall steps | o.batchSize <= o.maxSize ensures !Overflows(o, Run(o, steps).b) {
      FewerThanABatchWait(o, steps);
    }
    if o.maxSize < o.batchSize {
      BurstFills(o, o.maxSize);
      assert Overflows(o, Run(o, Burst(o.maxSize)).b);
    }
  }

  /** So with a batch that fits nothing is ever lost. */
  lemma {:induction false} NothingLost(o: Options, steps: seq<Step>)
    requires Sized(o) && o.batchSize <= o.maxSize
    ensures Run(o, steps).b.lost == []
  {
    if steps != [] {
      NothingLost(o, steps[..|steps| - 1]);
      FewerThanABatchWait(o, steps[..|steps| - 1]);
    }
  }
}

/** The Kotlin SDK's queue. Each section under the mutex is a step; a caller can be
    suspended between its append, its look at the size, its take and its callback. */
module KotlinQueue {
  import opened Common
  import opened SdkBuffer

  /** How a section ends: removeFirst throws on an empty deque, take on a negative
      count. */
  datatype Ending = Done | Rejected | Threw

  /** The sections under the mutex. */
  class EventQueue<T> {
    const o: Options
    var items: seq<T>
    ghost var lost: seq<T>
    ghost var batches: seq<seq<T>>

    ghost function View(): Buffer<T> reads this { Buffer(items, lost, batches) }

    constructor (o: Options)
      ensures this.o == o && View() == Buffer([], [], [])
    {
      this.o := o;
      items, lost, batches := [], [], [];
    }

    method Append(item: T) returns (ending: Ending)
      modifies this
      ensures ending == Threw <==> Overflows(o, old(View())) && o.dropOldest && old(items) == []
      ensures ending == Threw ==> View() == old(View())
      ensures ending != Threw ==> View() == Admit(o, old(View()), item)
      ensures ending == Rejected <==> Rejects(o, old(View()))
    {
      if |items| >= o.maxSize {
        if o.dropOldest {
          if |items| == 0 {
            return Threw;
          }
          lost := lost + [items[0]];
          items := items[1..];
        } else {
          lost := lost + [item];
          return Rejected;
        }
      }
      items := items + [item];
      ending := Done;
    }

    method Take() returns (ending: Ending, batch: seq<T>)
      modifies this
      ensures ending == if old(items) != [] && o.batchSize < 0 then Threw else Done
      ensures ending == Threw ==> View() == old(View())
      ensures ending == Done ==> View() == TakeBatch(o, old(View()))
      ensures batch == if old(items) == [] || ending == Threw then [] else batches[|batches| - 1]
    {
      if |items| == 0 {
        return Done, [];
      }
      if o.batchSize < 0 {
        return Threw, [];
      }
      batch := items[..Min(|items|, o.batchSize)];
      for k := 0 to |batch|
        modifies this`items
        invariant items == old(items)[k..]
      {
        items := items[1..];
      }
      batches := batches + [batch];
      ending := Done;
    }

    /** With nothing arriving meanwhile. `fails(i)` is whether the i-th callback throws,
        which ends the loop. What was handed over is a prefix, in order and in batches of
        at most batchSize; it is everything if and only if no callback before the one for
        the last batch fails. */
    method FlushAll(fails: nat -> bool) returns (ok: bool)
      requires o.batchSize >= 1
      modifies this
      ensures lost == old(lost) && Kept(View()) == old(Kept(View()))
      ensures MoreBatches(o, old(batches), batches)
      ensures OnlyLastFails(fails, |batches| - |old(batches)|)
      ensures ok <==> items == [] && forall i :: 0 <= i < BatchCount(old(|items|), o.batchSize) ==> !fails(i)
      ensures items == [] <==> forall i :: 0 <= i < BatchCount(old(|items|), o.batchSize) - 1 ==> !fails(i)
    {
      var calls := 0;
      while |items| > 0
        invariant lost == old(lost) && Kept(View()) == old(Kept(View()))
        invariant MoreBatches(o, old(batches), batches) && |batches| == |old(batches)| + calls
        invariant calls + BatchCount(|items|, o.batchSize) == BatchCount(old(|items|), o.batchSize)
        invariant forall i :: 0 <= i < calls ==> !fails(i)
        decreases |items|
      {
        TakeKeeps(o, View());
        var _, _ := Take();
        calls := calls + 1;
        if fails(calls - 1) {
          return false;
        }
      }
      ok := true;
    }
  }

  /** `checking` callers have appended and not yet looked at the size, `flushing` ones
      are about to take, `holding` ones have taken the batch of that index and not yet
      passed it on. */
  datatype State = State(
    offered: nat,
    b: Buffer<nat>,
    checking: set<nat>,
    flushing: set<nat>,
    holding: map<nat, nat>,
    delivered: set<nat>)

  const INIT := State(0, Buffer([], [], []), {}, {}, map[], {})

  predicate Idle(s: State, t: nat) {
    t !in s.checking && t !in s.flushing && t !in s.holding
  }

  /** Flush also stands for a turn of flushAll. */
  datatype Step = Append(t: nat) | Check(t: nat) | Flush(t: nat) | Take(t: nat) | Deliver(t: nat)

  predicate Enabled(s: State, step: Step) {
    match step
    case Append(t) => Idle(s, t)
    case Check(t) => t in s.checking
    case Flush(t) => Idle(s, t)
    case Take(t) => t in s.flushing
    case Deliver(t) => t in s.holding
  }

  function Apply(o: Options, s: State, step: Step): State
    requires Enabled(s, step)
  {
    match step
    case Append(t) =>
      var s' := s.(offered := s.offered + 1, b := Admit(o, s.b, s.offered));
      if Rejects(o, s.b) then s' else s'.(checking := s.checking + {t})
    case Check(t) =>
      s.(checking := s.checking - {t}, flushing := if |s.b.items| >= o.batchSize then s.flushing + {t} else s.flushing)
    case Flush(t) => s.(flushing := s.flushing + {t})
    case Take(t) =>
      s.(flushing := s.flushing - {t},
         b := TakeBatch(o, s.b),
         holding := if s.b.items == [] then s.holding else s.holding[t := |s.b.batches|])
    case Deliver(t) => s.(holding := s.holding - {t}, delivered := s.delivered + {s.holding[t]})
  }

  predicate Runs(o: Options, steps: seq<Step>)
    decreases |steps|, 0
  {
    steps == [] || (Runs(o, steps[..|steps| - 1]) && Enabled(Run(o, steps[..|steps| - 1]), steps[|steps| - 1]))
  }

  function Run(o: Options, steps: seq<Step>): State
    requires Runs(o, steps)
    decreases |steps|, 1
  {
    if steps == [] then INIT else Apply(o, Run(o, steps[..|steps| - 1]), steps[|steps| - 1])
  }

  // ------------------------------------------------------------------ safety

  /** Each batch taken is with exactly one caller, or was passed on. */
  ghost predicate Handed(s: State) {
    && (forall t :: t in s.holding ==> s.holding[t] < |s.b.batches| && s.holding[t] !in s.delivered)
    && (forall t, u :: t in s.holding && u in s.holding && s.holding[t] == s.holding[u] ==> t == u)
    && (forall i :: i in s.delivered ==> i < |s.b.batches|)
    && (forall i :: 0 <= i < |s.b.batches| && i !in s.delivered ==> HeldBySome(s, i))
  }

  ghost predicate HeldBySome(s: State, i: nat) {
    exists t :: t in s.holding && s.holding[t] == i
  }

  lemma TakeKeepsHanded(o: Options, s: State, t: nat)
    requires Handed(s) && t in s.flushing && t !in s.holding && s.b.items != []
    ensures Handed(Apply(o, s, Take(t)))
  {
    var s' := Apply(o, s, Take(t));
    assert s'.holding[t] == |s.b.batches|;
    forall i | 0 <= i < |s.b.batches| && i !in s.delivered ensures HeldBySome(s', i) {
      assert HeldBySome(s, i);
      var u :| u in s.holding && s.holding[u] == i;
      assert s'.holding[u] == i;
    }
  }

  lemma DeliverKeepsHanded(o: Options, s: State, t: nat)
    requires Handed(s) && t in s.holding
    ensures Handed(Apply(o, s, Deliver(t)))
  {
    var s' := Apply(o, s, Deliver(t));
    forall i | 0 <= i < |s.b.batches| && i !in s'.delivered ensures HeldBySome(s', i) {
      assert HeldBySome(s, i);
      var u :| u in s.holding && s.holding[u] == i;
      assert u in s'.holding && s'.holding[u] == i;
    }
  }

  lemma StepKeepsHanded(o: Options, s: State, step: Step)
    requires Handed(s) && OnePlace(s) && Enabled(s, step)
    ensures Handed(Apply(o, s, step))
  {
    if step.Take? && s.b.items != [] {
      TakeKeepsHanded(o, s, step.t);
    } else if step.Deliver? {
      DeliverKeepsHanded(o, s, step.t);
    } else {
      var s' := Apply(o, s, step);
      assert s'.holding == s.holding && s'.b.batches == s.b.batches;
      assert forall i :: HeldBySome(s, i) ==> HeldBySome(s', i);
    }
  }

  /** A caller is at one place at a time. */
  ghost predicate OnePlace(s: State) {
    && s.checking !! s.flushing && s.checking !! s.holding.Keys && s.flushing !! s.holding.Keys
  }

  lemma StepKeepsOnePlace(o: Options, s: State, step: Step)
    requires OnePlace(s) && Enabled(s, step)
    ensures OnePlace(Apply(o, s, step))
  {
  }

  lemma StepKeepsSound(o: Options, s: State, step: Step)
    requires Sized(o) && Sound(o, s.offered, s.b) && Enabled(s, step)
    ensures var s' := Apply(o, s, step); Sound(o, s'.offered, s'.b)
  {
    if step.Append? {
      AdmitIsSound(o, s.offered, s.b);
    } else if step.Take? {
      TakeKeepsAccount(o, s.b);
      SameAccountIsSound(o, s.offered, s.b, TakeBatch(o, s.b));
    }
  }

  /** In every interleaving: nothing is lost except by overflow, the take order is the
      order offered, batches are within bounds, and each batch is passed on once. */
  lemma {:induction false} RunIsSound(o: Options, steps: seq<Step>)
    requires Sized(o) && Runs(o, steps)
    ensures var s := Run(o, steps); Sound(o, s.offered, s.b) && Handed(s) && OnePlace(s)
  {
    if steps != [] {
      var front, last := steps[..|steps| - 1], steps[|steps| - 1];
      RunIsSound(o, front);
      StepKeepsHanded(o, Run(o, front), last);
      StepKeepsOnePlace(o, Run(o, front), last);
      StepKeepsSound(o, Run(o, front), last);
    }
  }

  // ---------------------------------------------------------------- overflow

  /** Callers between their append and their take. */
  function Busy(s: State): nat { |s.checking| + |s.flushing| }

  ghost predicate Bounded(o: Options, s: State) { |s.b.items| <= o.batchSize - 1 + Busy(s) }

  lemma StepKeepsBounded(o: Options, s: State, step: Step)
    requires Sized(o) && OnePlace(s) && Bounded(o, s) && Enabled(s, step)
    ensures Bounded(o, Apply(o, s, step))
  {
    var t := step.t;
    match step
    case Append(_) => assert |s.checking + {t}| == |s.checking| + 1;
    case Check(_) =>
      assert |s.checking - {t}| == |s.checking| - 1;
      assert |s.flushing + {t}| == |s.flushing| + 1;
    case Flush(_) => assert |s.flushing + {t}| == |s.flushing| + 1;
    case Take(_) => assert |s.flushing - {t}| == |s.flushing| - 1;
    case Deliver(_) =>
  }

  /** Beyond a batch less one, every waiting item has a caller on its way to take. */
  lemma {:induction false} WaitingIsBounded(o: Options, steps: seq<Step>)
    requires Sized(o) && Runs(o, steps)
    ensures Bounded(o, Run(o, steps))
  {
    if steps != [] {
      var front := steps[..|steps| - 1];
      WaitingIsBounded(o, front);
      RunIsSound(o, front);
      StepKeepsBounded(o, Run(o, front), steps[|steps| - 1]);
    }
  }

  /** An overflow needs at least maxSize - batchSize + 1 callers suspended between
      append and take. */
  lemma OverflowNeedsCallers(o: Options, steps: seq<Step>)
    requires Sized(o) && Runs(o, steps) && Overflows(o, Run(o, steps).b)
    ensures Busy(Run(o, steps)) >= o.maxSize - o.batchSize + 1
  {
    WaitingIsBounded(o, steps);
  }

  /** k appends by one caller that looks at the size each time, then m appends by
      callers 1 to m that are suspended before they look. */
  function Schedule(k: nat, m: nat): seq<Step> {
    if m > 0 then Schedule(k, m - 1) + [Append(m)]
    else if k > 0 then Schedule(k - 1, 0) + [Append(0), Check(0)]
    else []
  }

  lemma RunSnoc(o: Options, steps: seq<Step>, step: Step)
    requires Runs(o, steps) && Enabled(Run(o, steps), step)
    ensures Runs(o, steps + [step]) && Run(o, steps + [step]) == Apply(o, Run(o, steps), step)
  {
    assert (steps + [step])[..|steps|] == steps;
  }

  /** n items wait and callers 1 to m are suspended. */
  ghost predicate Filled(s: State, n: nat, m: nat) {
    && |s.b.items| == n && |s.checking| == m && s.flushing == {} && s.holding == map[]
    && forall t :: t in s.checking ==> 1 <= t <= m
  }

  lemma AppendWaiting(o: Options, steps: seq<Step>, n: nat, m: nat)
    requires Runs(o, steps) && Filled(Run(o, steps), n, m) && n < o.maxSize
    ensures Runs(o, steps + [Append(m + 1)]) && Filled(Run(o, steps + [Append(m + 1)]), n + 1, m + 1)
  {
    RunSnoc(o, steps, Append(m + 1));
    var s := Run(o, steps);
    assert |s.checking + {m + 1}| == m + 1;
  }

  lemma {:induction false} AppendAlone(o: Options, steps: seq<Step>, n: nat)
    requires Runs(o, steps) && Filled(Run(o, steps), n, 0) && n < o.maxSize && n + 1 < o.batchSize
    ensures Runs(o, steps + [Append(0), Check(0)]) && Filled(Run(o, steps + [Append(0), Check(0)]), n + 1, 0)
  {
    RunSnoc(o, steps, Append(0));
    RunSnoc(o, steps + [Append(0)], Check(0));
    assert steps + [Append(0), Check(0)] == steps + [Append(0)] + [Check(0)];
    assert Run(o, steps).checking == {};
    assert {0} - {0} == {};
  }

  lemma {:induction false} ScheduleFills(o: Options, k: nat, m: nat)
    requires Sized(o) && k < o.batchSize && k + m <= o.maxSize
    ensures Runs(o, Schedule(k, m)) && Filled(Run(o, Schedule(k, m)), k + m, m)
    decreases k + m
  {
    if m > 0 {
      ScheduleFills(o, k, m - 1);
      AppendWaiting(o, Schedule(k, m - 1), k + m - 1, m - 1);
    } else if k > 0 {
      ScheduleFills(o, k - 1, 0);
      AppendAlone(o, Schedule(k - 1, 0), k - 1);
    }
  }

  /** That many are enough: the overflow branch is reachable even when a batch fits in
      the buffer, with exactly max(0, maxSize - batchSize + 1) suspended callers. */
  lemma OverflowIsReachable(o: Options) returns (steps: seq<Step>)
    requires Sized(o)
    ensures Runs(o, steps) && Overflows(o, Run(o, steps).b)
    ensures Busy(Run(o, steps)) == if o.batchSize <= o.maxSize then o.maxSize - o.batchSize + 1 else 0
  {
    var k := Min(o.batchSize - 1, o.maxSize);
    ScheduleFills(o, k, o.maxSize - k);
    steps := Schedule(k, o.maxSize - k);
  }
}
