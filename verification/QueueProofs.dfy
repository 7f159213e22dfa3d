/** What every interleaving of the delivery queue keeps. */
module QueueProofs {
  import opened Common
  import opened QueueSections
  import opened QueueMachine

  // ---------------------------------------------------------------- reference

  /** The log without the messages in `gone`, in log order. */
  ghost function Keep(log: seq<Entry>, gone: seq<Entry>): seq<Entry> {
    if log == [] then []
    else
      var last := log[|log| - 1];
      Keep(log[..|log| - 1], gone) + (if last in gone then [] else [last])
  }

  /** What the policy retains of `entries` appended to an empty buffer: the newest
      min(n, maxSize) under drop_oldest, all of them otherwise. */
  ghost function Retained(c: Config, entries: seq<Entry>): seq<Entry>
    requires c.Valid()
  {
    if c.overflow == DropOldest && |entries| > c.maxSize then entries[|entries| - c.maxSize..] else entries
  }

  // ---------------------------------------------------------------- invariant

  /** Message ids are positions in the append order. */
  ghost predicate Indexed(log: seq<Entry>) {
    forall i :: 0 <= i < |log| ==> log[i].id == i
  }

  /** The buffer is what the policy retains of the appends since the last drain. */
  ghost predicate Content(c: Config, log: seq<Entry>, drained: nat, buf: seq<Entry>)
    requires c.Valid()
  {
    && drained <= |log|
    && buf == Retained(c, log[drained..])
    && (c.overflow != Unknown ==> |buf| <= c.maxSize)
  }

  /** Everything older than the buffer went out in append order, or was evicted. */
  ghost predicate Ordered(log: seq<Entry>, start: int, out: seq<Entry>, evicted: seq<Entry>) {
    && 0 <= start <= |log|
    && (forall e :: e in evicted ==> e.id < start)
    && out == Keep(log[..start], evicted)
  }

  /** The messages: nothing is reordered, and nothing leaves without being delivered or evicted. */
  ghost predicate Flow(c: Config, p: Pipe)
    requires c.Valid()
  {
    && Indexed(p.log)
    && Content(c, p.log, p.drained, p.buf)
    && (c.overflow != DropOldest ==> p.evicted == [])
    && Ordered(p.log, |p.log| - |p.buf|, p.delivered + p.hand, p.evicted)
    && p.settled <= p.drained
    && (forall e :: e in p.hand ==> p.settled <= e.id < p.drained)
  }

  /** Every append is in exactly one place: nothing is lost and nothing is duplicated. */
  ghost predicate Balanced(p: Pipe) {
    multiset(p.log) == multiset(p.evicted) + multiset(p.delivered) + multiset(p.hand) + multiset(p.buf)
  }

  /** The Flush call a request belongs to exists and had sent it by append `n`. */
  ghost predicate SentBy(flushes: seq<FlushCall>, req: Option<Request>, n: nat) {
    req.Some? && req.value.FlushOf? ==> req.value.fid < |flushes| && flushes[req.value.fid].mark <= n
  }

  /** How far each flush request has got. */
  ghost predicate Barriers(s: State) {
    && (!s.loop.Calling? ==> s.pipe.hand == [] && s.pipe.settled == s.pipe.drained)
    && SentBy(s.flushes, s.flushCh, |s.pipe.log|)
    && (s.loop.Draining? ==> SentBy(s.flushes, s.loop.req, |s.pipe.log|))
    && (s.loop.Calling? ==> SentBy(s.flushes, s.loop.req, s.pipe.drained))
    && (s.loop.Replying? ==> SentBy(s.flushes, s.loop.req, s.pipe.settled))
    && (forall i :: 0 <= i < |s.flushes| ==> s.flushes[i].mark <= |s.pipe.log|)
    && (forall i :: 0 <= i < |s.flushes| && (s.flushes[i].Answered? || s.flushes[i].Returned?) ==>
          s.flushes[i].mark <= s.pipe.settled)
  }

  ghost predicate Stages(s: State) {
    && (s.closed <==> s.shutdown.MarkedClosed? || s.shutdown.Stopped? || s.shutdown.Finished?)
    && (s.stopped <==> s.shutdown.Stopped? || s.shutdown.Finished?)
    && (s.loop.Exited? ==> s.stopped)
    && (s.shutdown.Finished? ==> s.loop.Exited?)
    && (s.closed ==> s.mutex.Free?)
    && (!s.shutdown.NotStarted? && !s.shutdown.Flushing? && s.shutdown.drain.Some? ==>
          s.shutdown.drain.value <= s.pipe.settled)
  }

  /** No lost wake-up: once a batch is full, somebody is already going to drain it. */
  ghost predicate Triggered(c: Config, s: State) {
    |s.pipe.buf| >= c.batchSize ==> s.mutex.Signalling? || s.flushCh.Some? || s.loop.Draining?
  }

  /** Nobody sleeps on the condition variable with room in the buffer or a closed queue. */
  ghost predicate Parked(c: Config, s: State) {
    s.mutex.Parking? || (exists t :: t in s.callers && s.callers[t].Waiting?) ==> NoRoom(c, s)
  }

  ghost predicate NoRoom(c: Config, s: State) {
    c.overflow == Block && |s.pipe.buf| >= c.maxSize && !s.closed
  }

  ghost predicate Inv(c: Config, s: State)
    requires c.Valid()
  {
    Flow(c, s.pipe) && Balanced(s.pipe) && Barriers(s) && Stages(s) && Triggered(c, s) && Parked(c, s)
  }

  // ------------------------------------------------------------------- Keep

  lemma {:induction false} KeepFrame(log: seq<Entry>, gone: seq<Entry>, victim: Entry)
    requires victim !in log
    ensures Keep(log, gone + [victim]) == Keep(log, gone)
  {
    if log != [] {
      KeepFrame(log[..|log| - 1], gone, victim);
    }
  }

  lemma {:induction false} KeepTail(log: seq<Entry>, tail: seq<Entry>, gone: seq<Entry>)
    requires forall e :: e in tail ==> e !in gone
    ensures Keep(log + tail, gone) == Keep(log, gone) + tail
  {
    if tail == [] {
      assert log + tail == log;
    } else {
      var last := tail[|tail| - 1];
      var front := tail[..|tail| - 1];
      assert tail == front + [last] && last in tail;
      assert (log + tail)[..|log + tail| - 1] == log + front;
      KeepTail(log, front, gone);
    }
  }

  // ----------------------------------------------------- the pipe's three moves

  lemma PushContent(c: Config, log: seq<Entry>, drained: nat, buf: seq<Entry>, entry: Entry)
    requires c.Valid() && Content(c, log, drained, buf) && (c.overflow == Unknown || |buf| < c.maxSize)
    ensures Content(c, log + [entry], drained, buf + [entry])
  {
    assert (log + [entry])[drained..] == log[drained..] + [entry];
  }

  lemma ShiftContent(c: Config, log: seq<Entry>, drained: nat, buf: seq<Entry>, entry: Entry)
    requires c.Valid() && Content(c, log, drained, buf) && c.overflow == DropOldest && |buf| >= c.maxSize
    ensures Content(c, log + [entry], drained, buf[1..] + [entry])
  {
    assert (log + [entry])[drained..] == log[drained..] + [entry];
  }

  lemma ContentIsSuffix(c: Config, log: seq<Entry>, drained: nat, buf: seq<Entry>)
    requires c.Valid() && Content(c, log, drained, buf)
    ensures |buf| <= |log| && buf == log[|log| - |buf|..]
  {
  }

  lemma EvictOrdered(log: seq<Entry>, start: nat, out: seq<Entry>, evicted: seq<Entry>)
    requires Indexed(log) && Ordered(log, start, out, evicted) && start < |log|
    ensures Ordered(log, start + 1, out, evicted + [log[start]])
  {
    assert log[..start + 1][..start] == log[..start];
    KeepFrame(log[..start], evicted, log[start]);
  }

  lemma GrowOrdered(log: seq<Entry>, start: nat, out: seq<Entry>, evicted: seq<Entry>, entry: Entry)
    requires Ordered(log, start, out, evicted)
    ensures Ordered(log + [entry], start, out, evicted)
  {
    assert (log + [entry])[..start] == log[..start];
  }

  lemma DrainOrdered(log: seq<Entry>, start: nat, out: seq<Entry>, evicted: seq<Entry>)
    requires Indexed(log) && Ordered(log, start, out, evicted)
    ensures Ordered(log, |log|, out + log[start..], evicted)
  {
    var tail := log[start..];
    forall e | e in tail ensures e !in evicted {
      var k :| 0 <= k < |tail| && tail[k] == e;
      assert e == log[start + k];
    }
    KeepTail(log[..start], tail, evicted);
    assert log[..start] + tail == log == log[..|log|];
  }

  lemma PushKeepsOrder(log: seq<Entry>, buf: seq<Entry>, out: seq<Entry>, evicted: seq<Entry>, entry: Entry)
    requires Ordered(log, |log| - |buf|, out, evicted)
    ensures Ordered(log + [entry], |log + [entry]| - |buf + [entry]|, out, evicted)
  {
    GrowOrdered(log, |log| - |buf|, out, evicted, entry);
  }

  lemma ShiftKeepsOrder(log: seq<Entry>, buf: seq<Entry>, out: seq<Entry>, evicted: seq<Entry>, entry: Entry)
    requires Indexed(log) && entry.id == |log| && buf != [] && |buf| <= |log| && buf == log[|log| - |buf|..]
    requires Ordered(log, |log| - |buf|, out, evicted)
    ensures Ordered(log + [entry], |log + [entry]| - |buf[1..] + [entry]|, out, evicted + [buf[0]])
  {
    var start := |log| - |buf|;
    GrowOrdered(log, start, out, evicted, entry);
    IndexedSnoc(log, entry);
    assert (log + [entry])[start] == buf[0];
    EvictOrdered(log + [entry], start, out, evicted);
  }

  lemma IndexedSnoc(log: seq<Entry>, entry: Entry)
    requires Indexed(log) && entry.id == |log|
    ensures Indexed(log + [entry])
  {
  }

  lemma FlowOfAppend(c: Config, p: Pipe, entry: Entry, buf: seq<Entry>, evicted: seq<Entry>)
    requires c.Valid() && Flow(c, p) && entry.id == |p.log|
    requires Content(c, p.log + [entry], p.drained, buf)
    requires Ordered(p.log + [entry], |p.log + [entry]| - |buf|, p.delivered + p.hand, evicted)
    requires c.overflow != DropOldest ==> evicted == []
    ensures Flow(c, p.(buf := buf, evicted := evicted, log := p.log + [entry]))
  {
    IndexedSnoc(p.log, entry);
  }

  lemma PushKeepsFlow(c: Config, p: Pipe, entry: Entry)
    requires c.Valid() && Flow(c, p) && entry.id == |p.log| && (c.overflow == Unknown || |p.buf| < c.maxSize)
    ensures Flow(c, p.(buf := p.buf + [entry], log := p.log + [entry]))
  {
    PushContent(c, p.log, p.drained, p.buf, entry);
    PushKeepsOrder(p.log, p.buf, p.delivered + p.hand, p.evicted, entry);
    FlowOfAppend(c, p, entry, p.buf + [entry], p.evicted);
  }

  lemma ShiftKeepsFlow(c: Config, p: Pipe, entry: Entry)
    requires c.Valid() && Flow(c, p) && entry.id == |p.log| && c.overflow == DropOldest && |p.buf| >= c.maxSize
    ensures Flow(c, p.(buf := p.buf[1..] + [entry], evicted := p.evicted + [p.buf[0]], log := p.log + [entry]))
  {
    ContentIsSuffix(c, p.log, p.drained, p.buf);
    ShiftContent(c, p.log, p.drained, p.buf, entry);
    ShiftKeepsOrder(p.log, p.buf, p.delivered + p.hand, p.evicted, entry);
    FlowOfAppend(c, p, entry, p.buf[1..] + [entry], p.evicted + [p.buf[0]]);
  }

  lemma AcceptKeepsFlow(c: Config, closed: bool, p: Pipe, entry: Entry, cancelled: bool)
    requires c.Valid() && Flow(c, p) && entry.id == |p.log|
    ensures Flow(c, Accept(p, EnqueueSection(c, closed, p.buf, entry, cancelled), entry))
  {
    var r := EnqueueSection(c, closed, p.buf, entry, cancelled);
    if r.outcome == Appended && r.evicted != [] {
      ShiftKeepsFlow(c, p, entry);
    } else if r.outcome == Appended {
      assert p.evicted + [] == p.evicted;
      PushKeepsFlow(c, p, entry);
    } else {
      assert p.evicted + r.evicted == p.evicted;
      assert Accept(p, r, entry) == p;
    }
  }

  lemma BufferedIds(c: Config, p: Pipe)
    requires c.Valid() && Indexed(p.log) && Content(c, p.log, p.drained, p.buf)
    ensures p.buf == p.log[|p.log| - |p.buf|..]
    ensures forall e :: e in p.buf ==> p.drained <= e.id < |p.log|
  {
    forall e | e in p.buf ensures p.drained <= e.id < |p.log| {
      var k :| 0 <= k < |p.buf| && p.buf[k] == e;
      assert e == p.log[|p.log| - |p.buf| + k];
    }
  }

  lemma TakeKeepsOrder(c: Config, p: Pipe)
    requires c.Valid() && Indexed(p.log) && Content(c, p.log, p.drained, p.buf) && p.hand == []
    requires Ordered(p.log, |p.log| - |p.buf|, p.delivered + p.hand, p.evicted)
    ensures Ordered(p.log, |p.log|, p.delivered + p.buf, p.evicted)
  {
    BufferedIds(c, p);
    DrainOrdered(p.log, |p.log| - |p.buf|, p.delivered + p.hand, p.evicted);
    assert p.delivered + p.hand == p.delivered;
  }

  lemma EmptyContent(c: Config, log: seq<Entry>)
    requires c.Valid()
    ensures Content(c, log, |log|, [])
  {
    assert log[|log|..] == [];
  }

  lemma FlowOfTake(c: Config, p: Pipe)
    requires c.Valid() && Flow(c, p) && p.settled == p.drained
    requires Content(c, p.log, |p.log|, []) && Ordered(p.log, |p.log|, p.delivered + p.buf, p.evicted)
    requires forall e :: e in p.buf ==> p.drained <= e.id < |p.log|
    ensures Flow(c, p.(hand := p.buf, buf := [], drained := |p.log|))
  {
  }

  lemma TakeKeepsFlow(c: Config, p: Pipe)
    requires c.Valid() && Flow(c, p) && p.hand == [] && p.settled == p.drained
    ensures Flow(c, Take(p))
  {
    BufferedIds(c, p);
    TakeKeepsOrder(c, p);
    EmptyContent(c, p.log);
    FlowOfTake(c, p);
  }

  lemma SettleKeepsFlow(c: Config, p: Pipe)
    requires c.Valid() && Flow(c, p)
    ensures Flow(c, Settle(p))
  {
    assert p.delivered + p.hand + [] == p.delivered + p.hand;
  }

  lemma HeadAndTail(s: seq<Entry>)
    requires s != []
    ensures multiset(s) == multiset([s[0]]) + multiset(s[1..])
  {
    assert s == [s[0]] + s[1..];
  }

  lemma AcceptKeepsBalance(c: Config, closed: bool, p: Pipe, entry: Entry, cancelled: bool)
    requires c.Valid() && Balanced(p)
    ensures Balanced(Accept(p, EnqueueSection(c, closed, p.buf, entry, cancelled), entry))
  {
    var r := EnqueueSection(c, closed, p.buf, entry, cancelled);
    var q := Accept(p, r, entry);
    if r.outcome == Appended {
      assert multiset(q.log) == multiset(p.log) + multiset([entry]);
      if r.evicted == [] {
        assert multiset(q.buf) == multiset(p.buf) + multiset([entry]);
      } else {
        HeadAndTail(p.buf);
        assert multiset(q.buf) == multiset(p.buf[1..]) + multiset([entry]);
        assert multiset(q.evicted) == multiset(p.evicted) + multiset([p.buf[0]]);
      }
    }
  }

  // ------------------------------------------------------- every step, every run

  lemma StepKeepsFlow(c: Config, s: State, step: Step)
    requires c.Valid() && Flow(c, s.pipe) && Barriers(s) && Enabled(s, step)
    ensures Flow(c, Apply(c, s, step).pipe)
  {
    match step
    case Enqueue(_, msg, cancelled) => AcceptKeepsFlow(c, s.closed, s.pipe, Entry(|s.pipe.log|, msg), cancelled);
    case Resume(tid, cancelled) =>
      AcceptKeepsFlow(c, s.closed, s.pipe, Entry(|s.pipe.log|, s.callers[tid].msg), cancelled);
    case TakeBuffer => TakeKeepsFlow(c, s.pipe);
    case FnReturn => SettleKeepsFlow(c, s.pipe);
    case _ =>
  }

  lemma StepKeepsBalance(c: Config, s: State, step: Step)
    requires c.Valid() && Balanced(s.pipe) && (!s.loop.Calling? ==> s.pipe.hand == []) && Enabled(s, step)
    ensures Balanced(Apply(c, s, step).pipe)
  {
    match step
    case Enqueue(_, msg, cancelled) => AcceptKeepsBalance(c, s.closed, s.pipe, Entry(|s.pipe.log|, msg), cancelled);
    case Resume(tid, cancelled) =>
      AcceptKeepsBalance(c, s.closed, s.pipe, Entry(|s.pipe.log|, s.callers[tid].msg), cancelled);
    case _ =>
  }

  /** What the barriers need to know about the pipe. */
  ghost predicate Counts(p: Pipe) {
    p.settled <= p.drained <= |p.log| && (p.buf == [] <==> p.drained == |p.log|)
  }

  lemma FlowCounts(c: Config, p: Pipe)
    requires c.Valid() && Flow(c, p)
    ensures Counts(p)
  {
  }

  predicate IsLoopStep(step: Step) {
    step.Tick? || step.Receive? || step.TakeBuffer? || step.FnReturn? || step.Reply? || step.LoopExit?
  }

  predicate IsEnqueueStep(step: Step) {
    step.Enqueue? || step.Resume? || step.CancelBroadcast? || step.Park? || step.Signal?
  }

  predicate IsFlushStep(step: Step) {
    step.FlushSend? || step.FlushReturn? || step.FlushAbandon?
  }

  lemma LoopStepKeepsBarriers(c: Config, s: State, step: Step)
    requires c.Valid() && Counts(s.pipe) && Barriers(s) && Enabled(s, step) && IsLoopStep(step)
    ensures Barriers(Apply(c, s, step))
  {
  }

  lemma EnqueueStepKeepsBarriers(c: Config, s: State, step: Step)
    requires c.Valid() && Barriers(s) && Enabled(s, step) && IsEnqueueStep(step)
    ensures Barriers(Apply(c, s, step))
  {
    var t := Apply(c, s, step);
    assert |s.pipe.log| <= |t.pipe.log| && t.flushes == s.flushes && t.loop == s.loop;
    assert t.pipe.drained == s.pipe.drained && t.pipe.settled == s.pipe.settled && t.pipe.hand == s.pipe.hand;
  }

  lemma FlushStepKeepsBarriers(c: Config, s: State, step: Step)
    requires c.Valid() && Barriers(s) && Enabled(s, step) && IsFlushStep(step)
    ensures Barriers(Apply(c, s, step))
  {
  }

  lemma ShutdownStepKeepsBarriers(c: Config, s: State, step: Step)
    requires c.Valid() && Barriers(s) && Enabled(s, step)
    requires !IsLoopStep(step) && !IsEnqueueStep(step) && !IsFlushStep(step)
    ensures Barriers(Apply(c, s, step))
  {
  }

  lemma StepKeepsBarriers(c: Config, s: State, step: Step)
    requires c.Valid() && Counts(s.pipe) && Barriers(s) && Enabled(s, step)
    ensures Barriers(Apply(c, s, step))
  {
    if IsLoopStep(step) {
      LoopStepKeepsBarriers(c, s, step);
    } else if IsEnqueueStep(step) {
      EnqueueStepKeepsBarriers(c, s, step);
    } else if IsFlushStep(step) {
      FlushStepKeepsBarriers(c, s, step);
    } else {
      ShutdownStepKeepsBarriers(c, s, step);
    }
  }

  lemma StepKeepsTriggered(c: Config, s: State, step: Step)
    requires c.Valid() && Triggered(c, s) && Enabled(s, step)
    ensures Triggered(c, Apply(c, s, step))
  {
  }

  lemma LoopStepKeepsStages(c: Config, s: State, step: Step)
    requires c.Valid() && Counts(s.pipe) && Stages(s) && Enabled(s, step) && IsLoopStep(step)
    ensures Stages(Apply(c, s, step))
  {
  }

  lemma CallerStepKeepsStages(c: Config, s: State, step: Step)
    requires c.Valid() && Barriers(s) && Stages(s) && Enabled(s, step) && !IsLoopStep(step)
    ensures Stages(Apply(c, s, step))
  {
  }

  lemma StepKeepsStages(c: Config, s: State, step: Step)
    requires c.Valid() && Counts(s.pipe) && Barriers(s) && Stages(s) && Enabled(s, step)
    ensures Stages(Apply(c, s, step))
  {
    if IsLoopStep(step) {
      LoopStepKeepsStages(c, s, step);
    } else {
      CallerStepKeepsStages(c, s, step);
    }
  }

  lemma EnqueueStepKeepsParked(c: Config, s: State, step: Step)
    requires c.Valid() && Parked(c, s) && Enabled(s, step) && IsEnqueueStep(step)
    ensures Parked(c, Apply(c, s, step))
  {
  }

  lemma OtherStepKeepsParked(c: Config, s: State, step: Step)
    requires c.Valid() && Parked(c, s) && Enabled(s, step) && !IsEnqueueStep(step)
    ensures Parked(c, Apply(c, s, step))
  {
  }

  lemma {:induction false} StepKeepsParked(c: Config, s: State, step: Step)
    requires c.Valid() && Parked(c, s) && Enabled(s, step)
    ensures Parked(c, Apply(c, s, step))
  {
    if IsEnqueueStep(step) {
      EnqueueStepKeepsParked(c, s, step);
    } else {
      OtherStepKeepsParked(c, s, step);
    }
  }

  lemma StepKeepsInv(c: Config, s: State, step: Step)
    requires c.Valid() && Inv(c, s) && Enabled(s, step)
    ensures Inv(c, Apply(c, s, step))
  {
    StepKeepsFlow(c, s, step);
    StepKeepsBalance(c, s, step);
    FlowCounts(c, s.pipe);
    StepKeepsBarriers(c, s, step);
    StepKeepsStages(c, s, step);
    StepKeepsTriggered(c, s, step);
    StepKeepsParked(c, s, step);
  }

  lemma {:induction false} RunKeepsInv(c: Config, s: State, steps: seq<Step>)
    requires c.Valid() && Inv(c, s) && Runs(c, s, steps)
    ensures Inv(c, Exec(c, s, steps))
    decreases |steps|
  {
    if steps != [] {
      RunKeepsInv(c, s, Front(steps));
      StepKeepsInv(c, Exec(c, s, Front(steps)), Last(steps));
    }
  }

  lemma Reachable(c: Config, steps: seq<Step>)
    requires c.Valid() && Runs(c, INIT, steps)
    ensures Inv(c, Exec(c, INIT, steps))
  {
    RunKeepsInv(c, INIT, steps);
  }
}
