/** The delivery queue's promises, stated over whole runs. */
module QueueTheorems {
  import opened Common
  import opened QueueSections
  import opened QueueMachine
  import opened QueueProofs

  // ---------------------------------------------------------- runs and history

  lemma Snoc(c: Config, s: State, front: seq<Step>, last: Step)
    requires c.Valid() && Runs(c, s, front) && Enabled(Exec(c, s, front), last)
    ensures Runs(c, s, front + [last]) && Exec(c, s, front + [last]) == Apply(c, Exec(c, s, front), last)
  {
    assert Front(front + [last]) == front;
  }

  lemma {:induction false} ExecSplit(c: Config, s: State, a: seq<Step>, b: seq<Step>)
    requires c.Valid() && Runs(c, s, a + b)
    ensures Runs(c, s, a) && Runs(c, Exec(c, s, a), b)
    ensures Exec(c, s, a + b) == Exec(c, Exec(c, s, a), b)
    decreases |b|
  {
    if b == [] {
      assert a + b == a;
    } else {
      assert Front(a + b) == a + Front(b) && Last(a + b) == Last(b);
      ExecSplit(c, s, a, Front(b));
    }
  }

  lemma {:induction false} ExecJoin(c: Config, s: State, a: seq<Step>, b: seq<Step>)
    requires c.Valid() && Runs(c, s, a) && Runs(c, Exec(c, s, a), b)
    ensures Runs(c, s, a + b) && Exec(c, s, a + b) == Exec(c, Exec(c, s, a), b)
    decreases |b|
  {
    if b == [] {
      assert a + b == a;
    } else {
      assert Front(a + b) == a + Front(b) && Last(a + b) == Last(b);
      ExecJoin(c, s, a, Front(b));
    }
  }

  lemma OneStep(c: Config, s: State, a: Step)
    requires c.Valid() && Enabled(s, a)
    ensures Runs(c, s, [a]) && Exec(c, s, [a]) == Apply(c, s, a)
  {
    assert Front([a]) == [];
  }

  lemma TwoSteps(c: Config, s: State, a: Step, b: Step)
    requires c.Valid() && Enabled(s, a) && Enabled(Apply(c, s, a), b)
    ensures Runs(c, s, [a, b]) && Exec(c, s, [a, b]) == Apply(c, Apply(c, s, a), b)
  {
    OneStep(c, s, a);
    assert Front([a, b]) == [a];
  }

  /** A run that begins with one step goes on from where that leads. */
  lemma ExecFirst(c: Config, s: State, first: Step, rest: seq<Step>)
    requires c.Valid() && Runs(c, s, [first] + rest)
    ensures Enabled(s, first) && Runs(c, Apply(c, s, first), rest)
    ensures Exec(c, s, [first] + rest) == Exec(c, Apply(c, s, first), rest)
  {
    ExecSplit(c, s, [first], rest);
    assert Front([first]) == [] && Last([first]) == first;
  }

  /** What `t` remembers of an earlier `s`. */
  ghost predicate Extends(s: State, t: State) {
    && s.pipe.log <= t.pipe.log
    && |s.flushes| <= |t.flushes|
    && (forall i :: 0 <= i < |s.flushes| ==> t.flushes[i].mark == s.flushes[i].mark)
    && (s.closed ==> t.closed && t.pipe.log == s.pipe.log)
  }

  lemma StepExtends(c: Config, s: State, t: State, step: Step)
    requires c.Valid() && Extends(s, t) && Enabled(t, step)
    ensures Extends(s, Apply(c, t, step))
  {
  }

  lemma {:induction false} RunExtends(c: Config, s: State, steps: seq<Step>)
    requires c.Valid() && Runs(c, s, steps)
    ensures Extends(s, Exec(c, s, steps))
    decreases |steps|
  {
    if steps != [] {
      RunExtends(c, s, Front(steps));
      StepExtends(c, s, Exec(c, s, Front(steps)), Last(steps));
    }
  }

  /** Whatever was appended before the last completed drain has left the queue. */
  lemma SettledIsOut(c: Config, p: Pipe, id: nat)
    requires c.Valid() && Flow(c, p) && Balanced(p) && id < p.settled
    ensures id < |p.log| && (p.log[id] in p.delivered || p.log[id] in p.evicted)
  {
    BufferedIds(c, p);
    assert p.log[id] in multiset(p.log);
  }

  // -------------------------------------------------------------- conservation

  lemma KeepAll(log: seq<Entry>)
    ensures Keep(log, []) == log
  {
    KeepTail([], log, []);
    assert [] + log == log;
  }

  lemma OutIsAppendOrder(c: Config, p: Pipe)
    requires c.Valid() && Flow(c, p)
    ensures p.delivered + p.hand + p.buf == Keep(p.log, p.evicted)
  {
    var start := |p.log| - |p.buf|;
    assert p.buf == p.log[start..];
    DrainOrdered(p.log, start, p.delivered + p.hand, p.evicted);
    assert p.log[..|p.log|] == p.log;
  }

  /** In every interleaving the appended messages are, each exactly once, evicted,
      handed to fn, held by doFlush or still buffered; and what went out, is going
      out and waits is the append order minus the evictions. */
  lemma Conservation(c: Config, steps: seq<Step>)
    requires c.Valid() && Runs(c, INIT, steps)
    ensures var p := Exec(c, INIT, steps).pipe;
      && Balanced(p)
      && (forall i, j :: 0 <= i < j < |p.log| ==> p.log[i] != p.log[j])
      && p.delivered + p.hand + p.buf == Keep(p.log, p.evicted)
  {
    Reachable(c, steps);
    OutIsAppendOrder(c, Exec(c, INIT, steps).pipe);
  }

  /** Under drop_newest and block nothing is evicted, so the order is exact. */
  lemma ExactOrder(c: Config, steps: seq<Step>)
    requires c.Valid() && Runs(c, INIT, steps) && c.overflow != DropOldest
    ensures var p := Exec(c, INIT, steps).pipe; p.evicted == [] && p.delivered + p.hand + p.buf == p.log
  {
    Reachable(c, steps);
    var p := Exec(c, INIT, steps).pipe;
    OutIsAppendOrder(c, p);
    KeepAll(p.log);
  }

  /** Bounded by a known policy, and what the policy retains of the appends since the
      last drain. */
  ghost predicate Holds(c: Config, p: Pipe) {
    && (c.overflow != Unknown ==> |p.buf| <= c.maxSize)
    && p.drained <= |p.log|
    && var since := p.log[p.drained..];
       p.buf == if c.overflow == DropOldest && |since| > c.maxSize then since[|since| - c.maxSize..] else since
  }

  lemma FlowHolds(c: Config, p: Pipe)
    requires c.Valid() && Flow(c, p)
    ensures Holds(c, p)
  {
  }

  /** The buffer never outgrows maxSize under a known policy, however many blocked
      callers one broadcast wakes, and holds exactly what the policy retains of
      the messages appended since the last drain. */
  lemma BufferBoundAndContent(c: Config, steps: seq<Step>)
    requires c.Valid() && Runs(c, INIT, steps)
    ensures Holds(c, Exec(c, INIT, steps).pipe)
  {
    Reachable(c, steps);
    FlowHolds(c, Exec(c, INIT, steps).pipe);
  }

  /** n messages wait and nobody is at work in Enqueue. */
  ghost predicate Filled(s: State, n: nat) {
    |s.pipe.buf| == n && s.mutex.Free? && !s.closed && s.callers == map[]
  }

  lemma {:induction false} FillUp(c: Config, n: nat) returns (steps: seq<Step>)
    requires c.Valid() && (c.overflow == Unknown || n <= c.maxSize)
    ensures Runs(c, INIT, steps) && Filled(Exec(c, INIT, steps), n)
  {
    if n == 0 {
      return [];
    }
    var front := FillUp(c, n - 1);
    var tail := FillOne(c, Exec(c, INIT, front), n);
    ExecJoin(c, INIT, front, tail);
    return front + tail;
  }

  lemma FillOne(c: Config, s: State, n: nat) returns (tail: seq<Step>)
    requires c.Valid() && n > 0 && Filled(s, n - 1) && (c.overflow == Unknown || n <= c.maxSize)
    ensures Runs(c, s, tail) && Filled(Exec(c, s, tail), n)
  {
    var push := Enqueue(0, Track(""), false);
    var s1 := Apply(c, s, push);
    assert s1.callers == map[];
    if n >= c.batchSize {
      TwoSteps(c, s, push, Signal);
      tail := [push, Signal];
    } else {
      OneStep(c, s, push);
      tail := [push];
    }
  }

  /** A policy string the queue does not know disables the bound altogether. */
  lemma UnknownPolicyHasNoBound(c: Config, n: nat) returns (steps: seq<Step>)
    requires c.Valid() && c.overflow == Unknown
    ensures Runs(c, INIT, steps) && |Exec(c, INIT, steps).pipe.buf| == n
  {
    steps := FillUp(c, n);
  }

  /** The capacity-1 channel loses no wake-up: with a full batch buffered, no signal
      still to be sent and the run loop back at its select, a request is waiting. */
  lemma FullBatchIsNeverForgotten(c: Config, steps: seq<Step>)
    requires c.Valid() && Runs(c, INIT, steps)
    ensures var s := Exec(c, INIT, steps);
      |s.pipe.buf| >= c.batchSize && !s.mutex.Signalling? && s.loop.Selecting? ==> Enabled(s, Receive)
  {
    Reachable(c, steps);
  }

  /** The broadcasts lose no blocked caller: whoever still sleeps in Enqueue does so
      with a full buffer and an open queue. */
  lemma SleepersHaveNoRoom(c: Config, steps: seq<Step>)
    requires c.Valid() && Runs(c, INIT, steps)
    ensures var s := Exec(c, INIT, steps);
      forall t :: t in s.callers && s.callers[t].Waiting? ==>
        c.overflow == Block && |s.pipe.buf| == c.maxSize && !s.closed
  {
    Reachable(c, steps);
  }

  // -------------------------------------------------------- what callers are told

  /** A waiting caller keeps its message and stays until its own next pass. */
  lemma CallersStay(c: Config, s: State, step: Step, t: nat)
    requires c.Valid() && Enabled(s, step) && t in s.callers && !(step.Resume? && step.tid == t)
    requires !(s.mutex.Parking? && s.mutex.tid == t)
    ensures var s' := Apply(c, s, step); t in s'.callers && s'.callers[t].msg == s.callers[t].msg
  {
  }

  /** A held caller parks with its own message. */
  lemma ParksWithItsMessage(c: Config, s: State)
    requires c.Valid() && Enabled(s, Park)
    ensures var s' := Apply(c, s, Park);
      s'.mutex.Free? && s'.pipe == s.pipe
      && s.mutex.tid in s'.callers && s'.callers[s.mutex.tid] == Waiting(s.mutex.msg)
  {
  }

  /** The step is a pass of caller `tid` through the locked section of Enqueue. */
  predicate IsPass(s: State, step: Step, tid: nat, msg: Message, cancelled: bool) {
    || step == Enqueue(tid, msg, cancelled)
    || (step == Resume(tid, cancelled) && tid in s.callers && s.callers[tid].msg == msg)
  }

  /** The call returns with this answer, and without having changed a message. */
  ghost predicate Refused(s: State, s': State, tid: nat, msg: Message, outcome: Outcome) {
    && s'.answers == s.answers + [Return(tid, msg, outcome)]
    && s'.pipe == s.pipe && s'.mutex.Free? && tid !in s'.callers
  }

  /** The call returns having appended its message, and holds the mutex on if a full
      batch is to be signalled. */
  ghost predicate Accepted(c: Config, s: State, s': State, tid: nat, msg: Message) {
    && s'.answers == s.answers + [Return(tid, msg, Appended)]
    && s'.pipe.log == s.pipe.log + [Entry(|s.pipe.log|, msg)] && tid !in s'.callers
    && s'.mutex == (if |s'.pipe.buf| >= c.batchSize then Signalling else Free)
  }

  /** The call does not return; it is on its way to the condition variable's list. */
  ghost predicate Held(s: State, s': State, tid: nat, msg: Message) {
    s'.answers == s.answers && s'.pipe == s.pipe && s'.mutex == Parking(tid, msg) && tid !in s'.callers
  }

  /** Each pass: a closed queue refuses; then the block policy refuses a cancelled caller
      and holds any other one while there is no room; drop_newest refuses without room;
      everything else is accepted. */
  ghost predicate PassTable(c: Config, s: State, s': State, tid: nat, msg: Message, cancelled: bool) {
    if s.closed then Refused(s, s', tid, msg, Closed)
    else if c.overflow == Block && cancelled then Refused(s, s', tid, msg, Cancelled)
    else if c.overflow == Block && |s.pipe.buf| >= c.maxSize then Held(s, s', tid, msg)
    else if c.overflow == DropNewest && |s.pipe.buf| >= c.maxSize then Refused(s, s', tid, msg, Discarded)
    else Accepted(c, s, s', tid, msg)
  }

  lemma PassAnswers(c: Config, s: State, step: Step, tid: nat, msg: Message, cancelled: bool)
    requires c.Valid() && Enabled(s, step) && IsPass(s, step, tid, msg, cancelled)
    ensures PassTable(c, s, Apply(c, s, step), tid, msg, cancelled)
    ensures Apply(c, s, step).closed == s.closed
  {
    assert s.pipe.evicted + [] == s.pipe.evicted;
  }

  /** No other step answers a call. */
  lemma OnlyPassesAnswer(c: Config, s: State, step: Step)
    requires c.Valid() && Enabled(s, step) && !step.Enqueue? && !step.Resume?
    ensures Apply(c, s, step).answers == s.answers && Apply(c, s, step).pipe.log == s.pipe.log
  {
  }

  function AppendedMessages(answers: seq<Return>): seq<Message> {
    if answers == [] then []
    else
      var last := answers[|answers| - 1];
      AppendedMessages(answers[..|answers| - 1]) + if last.outcome == Appended then [last.msg] else []
  }

  function Messages(log: seq<Entry>): seq<Message> {
    seq(|log|, i requires 0 <= i < |log| => log[i].msg)
  }

  /** An answer has its cause. */
  predicate Caused(c: Config, closed: bool, a: Return) {
    && a.outcome != MustWait
    && (a.outcome == Closed ==> closed)
    && (a.outcome == Cancelled ==> c.overflow == Block)
    && (a.outcome == Discarded ==> c.overflow == DropNewest)
  }

  /** The answers given so far fit the log, the policy and the closing. */
  ghost predicate Told(c: Config, closed: bool, answers: seq<Return>, log: seq<Entry>) {
    && AppendedMessages(answers) == Messages(log)
    && forall a :: a in answers ==> Caused(c, closed, a)
  }

  lemma TellOne(c: Config, closed: bool, answers: seq<Return>, log: seq<Entry>, a: Return)
    requires Told(c, closed, answers, log) && Caused(c, closed, a)
    ensures Told(c, closed, answers + [a], if a.outcome == Appended then log + [Entry(|log|, a.msg)] else log)
  {
    assert (answers + [a])[..|answers|] == answers;
    assert Messages(log + [Entry(|log|, a.msg)]) == Messages(log) + [a.msg];
  }

  lemma PassKeepsTold(c: Config, s: State, s': State, tid: nat, msg: Message, cancelled: bool)
    requires Told(c, s.closed, s.answers, s.pipe.log) && PassTable(c, s, s', tid, msg, cancelled)
    requires s'.closed == s.closed
    ensures Told(c, s'.closed, s'.answers, s'.pipe.log)
  {
    if s'.answers != s.answers {
      var a := s'.answers[|s.answers|];
      assert s'.answers == s.answers + [a];
      TellOne(c, s.closed, s.answers, s.pipe.log, a);
    }
  }

  lemma ClosingIsFinal(c: Config, s: State, step: Step)
    requires c.Valid() && Enabled(s, step)
    ensures s.closed ==> Apply(c, s, step).closed
  {
  }

  lemma StepKeepsTold(c: Config, s: State, step: Step)
    requires c.Valid() && Told(c, s.closed, s.answers, s.pipe.log) && Enabled(s, step)
    ensures var s' := Apply(c, s, step); Told(c, s'.closed, s'.answers, s'.pipe.log)
  {
    var s' := Apply(c, s, step);
    if step.Enqueue? {
      PassAnswers(c, s, step, step.tid, step.msg, step.cancelled);
      PassKeepsTold(c, s, s', step.tid, step.msg, step.cancelled);
    } else if step.Resume? {
      PassAnswers(c, s, step, step.tid, s.callers[step.tid].msg, step.cancelled);
      PassKeepsTold(c, s, s', step.tid, s.callers[step.tid].msg, step.cancelled);
    } else {
      OnlyPassesAnswer(c, s, step);
      ClosingIsFinal(c, s, step);
    }
  }

  /** In every interleaving the calls answered nil for an append are, message by message
      and in order, exactly the log; Closed is answered only by a closed queue, Cancelled
      only under block, Discarded only under drop_newest. */
  lemma {:induction false} AnswersFitTheLog(c: Config, steps: seq<Step>)
    requires c.Valid() && Runs(c, INIT, steps)
    ensures var s := Exec(c, INIT, steps); Told(c, s.closed, s.answers, s.pipe.log)
    decreases |steps|
  {
    if steps != [] {
      AnswersFitTheLog(c, Front(steps));
      StepKeepsTold(c, Exec(c, INIT, Front(steps)), Last(steps));
    }
  }

  /** All answers given since `s` are Closed. */
  ghost predicate OnlyClosed(s: State, t: State) {
    && t.closed && s.answers <= t.answers
    && forall i :: |s.answers| <= i < |t.answers| ==> t.answers[i].outcome == Closed
  }

  lemma ClosedStep(c: Config, s: State, t: State, step: Step)
    requires c.Valid() && OnlyClosed(s, t) && Enabled(t, step)
    ensures OnlyClosed(s, Apply(c, t, step))
  {
    if step.Enqueue? || step.Resume? {
      var msg := if step.Enqueue? then step.msg else t.callers[step.tid].msg;
      PassAnswers(c, t, step, step.tid, msg, step.cancelled);
    } else {
      OnlyPassesAnswer(c, t, step);
    }
  }

  /** Every call answered after the closing is answered Closed. */
  lemma {:induction false} ClosedIsTheAnswer(c: Config, s: State, steps: seq<Step>)
    requires c.Valid() && Runs(c, s, steps) && s.closed
    ensures OnlyClosed(s, Exec(c, s, steps))
    decreases |steps|
  {
    if steps != [] {
      ClosedIsTheAnswer(c, s, Front(steps));
      ClosedStep(c, s, Exec(c, s, Front(steps)), Last(steps));
    }
  }

  // ------------------------------------------------------------------ barriers

  /** When a Flush call returns through its channel, fn has returned for every
      message appended before the call's request was sent, evictions aside. */
  lemma FlushBarrier(c: Config, before: seq<Step>, after: seq<Step>)
    requires c.Valid() && Runs(c, INIT, before + ([FlushSend] + after))
    requires Runs(c, INIT, before)
    requires var s := Exec(c, INIT, before); var t := Exec(c, INIT, before + ([FlushSend] + after));
      |s.flushes| < |t.flushes| && t.flushes[|s.flushes|].Returned?
    ensures var s := Exec(c, INIT, before); var t := Exec(c, INIT, before + ([FlushSend] + after));
      forall e :: e in s.pipe.log ==> e in t.pipe.delivered || e in t.pipe.evicted
  {
    var s, t := Exec(c, INIT, before), Exec(c, INIT, before + ([FlushSend] + after));
    ExecSplit(c, INIT, before, [FlushSend] + after);
    ExecFirst(c, s, FlushSend, after);
    var sent := Apply(c, s, FlushSend);
    RunExtends(c, sent, after);
    Reachable(c, before + ([FlushSend] + after));
    assert t.flushes[|s.flushes|].mark == |s.pipe.log|;
    forall e | e in s.pipe.log ensures e in t.pipe.delivered || e in t.pipe.evicted {
      var i :| 0 <= i < |s.pipe.log| && s.pipe.log[i] == e;
      SettledIsOut(c, t.pipe, i);
    }
  }

  /** The shutdown that began with flush `fid`, sent at append `mark`. */
  ghost predicate ShutdownOf(s: State, fid: nat, mark: nat) {
    match s.shutdown
    case NotStarted => false
    case Flushing(f) => f == fid && fid < |s.flushes| && s.flushes[fid].mark == mark
    case Flushed(d) => d.Some? ==> d.value == mark
    case MarkedClosed(d) => d.Some? ==> d.value == mark
    case Stopped(d) => d.Some? ==> d.value == mark
    case Finished(d) => d.Some? ==> d.value == mark
  }

  lemma StepKeepsShutdown(c: Config, s: State, step: Step, fid: nat, mark: nat)
    requires c.Valid() && Enabled(s, step) && ShutdownOf(s, fid, mark)
    ensures ShutdownOf(Apply(c, s, step), fid, mark)
  {
  }

  lemma {:induction false} RunKeepsShutdown(c: Config, s: State, steps: seq<Step>, fid: nat, mark: nat)
    requires c.Valid() && Runs(c, s, steps) && ShutdownOf(s, fid, mark)
    ensures ShutdownOf(Exec(c, s, steps), fid, mark)
    decreases |steps|
  {
    if steps != [] {
      RunKeepsShutdown(c, s, Front(steps), fid, mark);
      StepKeepsShutdown(c, Exec(c, s, Front(steps)), Last(steps), fid, mark);
    }
  }

  /** Nothing is appended once the queue is closed. */
  lemma ClosedMeansNoAppend(c: Config, s: State, steps: seq<Step>)
    requires c.Valid() && Runs(c, s, steps) && s.closed
    ensures Exec(c, s, steps).pipe.log == s.pipe.log && Exec(c, s, steps).closed
  {
    RunExtends(c, s, steps);
  }

  /** What a completed shutdown flush promises of the messages appended before it. */
  ghost predicate ShutDown(log: seq<Entry>, p: Pipe) {
    && (forall e :: e in log ==> e in p.delivered || e in p.evicted)
    && (forall e :: e in p.buf ==> e !in log)
    && p.hand == []
    && (p.buf == [] <==> p.drained == |p.log|)
    && (p.buf == [] ==> p.delivered == Keep(p.log, p.evicted))
  }

  lemma SettledPrefixIsOut(c: Config, log: seq<Entry>, p: Pipe)
    requires c.Valid() && Flow(c, p) && Balanced(p) && log <= p.log && |log| <= p.settled
    ensures forall e :: e in log ==> e in p.delivered || e in p.evicted
    ensures forall e :: e in p.buf ==> e !in log
  {
    forall e | e in log ensures e.id < |log| && (e in p.delivered || e in p.evicted) {
      var i :| 0 <= i < |log| && log[i] == e;
      assert p.log[i] == e;
      SettledIsOut(c, p, i);
    }
    BufferedIds(c, p);
  }

  lemma FinishedIsShutDown(c: Config, log: seq<Entry>, t: State)
    requires c.Valid() && Inv(c, t) && t.shutdown.Finished? && t.shutdown.drain == Some(|log|) && log <= t.pipe.log
    ensures ShutDown(log, t.pipe)
  {
    var p := t.pipe;
    SettledPrefixIsOut(c, log, p);
    FlowCounts(c, p);
    OutIsAppendOrder(c, p);
    assert p.delivered + [] + [] == p.delivered;
  }

  /** After a Shutdown whose flush completed: everything appended before that flush
      was sent has been through fn or was evicted, whatever is left in the buffer
      was appended later, and something is left exactly when the last drain came
      before the last append. */
  lemma ShutdownBarrier(c: Config, before: seq<Step>, after: seq<Step>)
    requires c.Valid() && Runs(c, INIT, before + ([ShutdownFlush] + after)) && Runs(c, INIT, before)
    requires var t := Exec(c, INIT, before + ([ShutdownFlush] + after)); t.shutdown.Finished? && t.shutdown.drain.Some?
    ensures ShutDown(Exec(c, INIT, before).pipe.log, Exec(c, INIT, before + ([ShutdownFlush] + after)).pipe)
  {
    var s := Exec(c, INIT, before);
    ExecSplit(c, INIT, before, [ShutdownFlush] + after);
    ExecFirst(c, s, ShutdownFlush, after);
    var sent := Apply(c, s, ShutdownFlush);
    RunExtends(c, sent, after);
    RunKeepsShutdown(c, sent, after, |s.flushes|, |s.pipe.log|);
    Reachable(c, before + ([ShutdownFlush] + after));
    FinishedIsShutDown(c, s.pipe.log, Exec(c, INIT, before + ([ShutdownFlush] + after)));
  }

  lemma FinishedStep(c: Config, s: State, step: Step)
    requires c.Valid() && Inv(c, s) && s.shutdown.Finished? && Enabled(s, step)
    ensures Apply(c, s, step).pipe == s.pipe && Apply(c, s, step).shutdown.Finished?
  {
    assert s.pipe.evicted + [] == s.pipe.evicted;
  }

  /** A finished shutdown is final: what is left in the buffer is never delivered. */
  lemma {:induction false} FinishedIsFinal(c: Config, s: State, steps: seq<Step>)
    requires c.Valid() && Inv(c, s) && s.shutdown.Finished? && Runs(c, s, steps)
    ensures Exec(c, s, steps).pipe == s.pipe && Exec(c, s, steps).shutdown.Finished?
    decreases |steps|
  {
    if steps != [] {
      FinishedIsFinal(c, s, Front(steps));
      RunKeepsInv(c, s, Front(steps));
      FinishedStep(c, Exec(c, s, Front(steps)), Last(steps));
    }
  }

  /** One round of the run loop, on a tick or on a request, passes everything buffered
      to fn and leaves the buffer empty. */
  lemma RoundDelivers(c: Config, s: State, first: Step)
    requires c.Valid() && Inv(c, s) && s.mutex.Free? && s.pipe.buf != []
    requires first in {Tick, Receive} && Enabled(s, first)
    ensures Runs(c, s, [first, TakeBuffer] + [FnReturn, Reply])
    ensures var t := Exec(c, s, [first, TakeBuffer] + [FnReturn, Reply]);
      && t.pipe.buf == [] && t.pipe.delivered == s.pipe.delivered + s.pipe.buf && t.loop.Selecting?
      && (first == Receive && s.flushCh.value.FlushOf? ==>
            var fid := s.flushCh.value.fid;
            fid < |s.flushes| && fid < |t.flushes| && (s.flushes[fid].Sent? ==> t.flushes[fid].Answered?))
  {
    TwoSteps(c, s, first, TakeBuffer);
    var s2 := Exec(c, s, [first, TakeBuffer]);
    TwoSteps(c, s2, FnReturn, Reply);
    ExecJoin(c, s, [first, TakeBuffer], [FnReturn, Reply]);
  }

  // ------------------------------------------------- promises that do not hold

  lemma EmptyDrain(c: Config) returns (steps: seq<Step>, t: State)
    requires c.Valid()
    ensures Runs(c, INIT, steps) && t == Exec(c, INIT, steps)
    ensures t == INIT.(flushes := [Answered(0)], shutdown := Flushed(Some(0)))
  {
    TwoSteps(c, INIT, ShutdownFlush, Receive);
    var s2 := INIT.(flushes := [Sent(0)], shutdown := Flushing(0), loop := Draining(Some(FlushOf(0))));
    assert Exec(c, INIT, [ShutdownFlush, Receive]) == s2;
    DrainEmpty(c, s2);
    var s4 := s2.(flushes := [Answered(0)], loop := Selecting);
    OneStep(c, s4, ShutdownFlushDone);
    t := Apply(c, s4, ShutdownFlushDone);
    ExecJoin(c, INIT, [ShutdownFlush, Receive], [TakeBuffer, Reply]);
    steps := [ShutdownFlush, Receive] + [TakeBuffer, Reply];
    ExecJoin(c, INIT, steps, [ShutdownFlushDone]);
    steps := steps + [ShutdownFlushDone];
  }

  lemma DrainEmpty(c: Config, s: State)
    requires c.Valid() && s.mutex.Free? && s.pipe.buf == [] && s.flushes == [Sent(0)]
    requires s.loop == Draining(Some(FlushOf(0)))
    ensures Runs(c, s, [TakeBuffer, Reply])
    ensures Exec(c, s, [TakeBuffer, Reply]) == s.(flushes := [Answered(0)], loop := Selecting)
  {
    TwoSteps(c, s, TakeBuffer, Reply);
  }

  lemma CloseAndStop(c: Config, s: State) returns (steps: seq<Step>, t: State)
    requires c.Valid() && s.mutex.Free? && s.shutdown.Flushed? && s.loop.Selecting?
    ensures Runs(c, s, steps) && t == Exec(c, s, steps)
    ensures t == s.(closed := true, stopped := true, loop := Exited, callers := WakeAll(s.callers),
                    shutdown := Finished(s.shutdown.drain))
  {
    TwoSteps(c, s, ShutdownClose, ShutdownStop);
    var s2 := Exec(c, s, [ShutdownClose, ShutdownStop]);
    TwoSteps(c, s2, LoopExit, ShutdownWait);
    t := Exec(c, s2, [LoopExit, ShutdownWait]);
    ExecJoin(c, s, [ShutdownClose, ShutdownStop], [LoopExit, ShutdownWait]);
    steps := [ShutdownClose, ShutdownStop] + [LoopExit, ShutdownWait];
  }

  /** A whole Shutdown with these steps taken between its drain and its closing. */
  lemma ShutdownWith(c: Config, gap: seq<Step>) returns (steps: seq<Step>, s: State, t: State)
    requires c.Valid()
    requires var s := INIT.(flushes := [Answered(0)], shutdown := Flushed(Some(0)));
      Runs(c, s, gap) && var s' := Exec(c, s, gap); s'.mutex.Free? && s'.shutdown.Flushed? && s'.loop.Selecting?
    ensures s == Exec(c, INIT.(flushes := [Answered(0)], shutdown := Flushed(Some(0))), gap)
    ensures Runs(c, INIT, steps) && t == Exec(c, INIT, steps)
    ensures t == s.(closed := true, stopped := true, loop := Exited, callers := WakeAll(s.callers),
                    shutdown := Finished(s.shutdown.drain))
  {
    var drain, d := EmptyDrain(c);
    s := Exec(c, d, gap);
    ExecJoin(c, INIT, drain, gap);
    var close, u := CloseAndStop(c, s);
    ExecJoin(c, INIT, drain + gap, close);
    steps, t := drain + gap + close, u;
  }

  /** Shutdown does not deliver everything that Enqueue accepted: a message appended
      between the drain and the closing is accepted and then stranded. */
  lemma MessageLostInTheGap(c: Config, msg: Message) returns (steps: seq<Step>)
    requires c.Valid()
    ensures Runs(c, INIT, steps)
    ensures var t := Exec(c, INIT, steps);
      t.shutdown == Finished(Some(0)) && t.pipe.buf == [Entry(0, msg)] && t.pipe.delivered == []
  {
    var d := INIT.(flushes := [Answered(0)], shutdown := Flushed(Some(0)));
    var push := Enqueue(0, msg, false);
    var gap := [push];
    if c.batchSize == 1 {
      TwoSteps(c, d, push, Signal);
      gap := [push, Signal];
    } else {
      OneStep(c, d, push);
    }
    var s, t;
    steps, s, t := ShutdownWith(c, gap);
  }

  // Flush after Shutdown need not report that the queue is closed.

  /** The loop has exited with this request unanswered. */
  ghost predicate Hanging(s: State, fid: nat) {
    s.loop.Exited? && fid < |s.flushes| && (s.flushes[fid].Sent? || s.flushes[fid].Abandoned?)
  }

  lemma HangingStep(c: Config, s: State, step: Step, fid: nat)
    requires c.Valid() && Enabled(s, step) && Hanging(s, fid)
    ensures Hanging(Apply(c, s, step), fid)
  {
  }

  /** Once the loop has exited no run answers a request that was sent. */
  lemma {:induction false} FlushAfterShutdownIsNeverAnswered(c: Config, s: State, steps: seq<Step>, fid: nat)
    requires c.Valid() && Runs(c, s, steps) && Hanging(s, fid)
    ensures Hanging(Exec(c, s, steps), fid)
    decreases |steps|
  {
    if steps != [] {
      FlushAfterShutdownIsNeverAnswered(c, s, Front(steps), fid);
      HangingStep(c, Exec(c, s, Front(steps)), Last(steps), fid);
    }
  }

  /** A request in the channel of a queue that has shut down stays there and keeps
      every later one out: no Flush can be sent any more. */
  lemma {:induction false} FullChannelStaysFull(c: Config, s: State, steps: seq<Step>)
    requires c.Valid() && Inv(c, s) && s.shutdown.Finished? && s.flushCh.Some? && Runs(c, s, steps)
    ensures var t := Exec(c, s, steps); t.flushCh == s.flushCh && |t.flushes| == |s.flushes| && t.shutdown.Finished?
    decreases |steps|
  {
    if steps != [] {
      FullChannelStaysFull(c, s, Front(steps));
      RunKeepsInv(c, s, Front(steps));
      FullChannelStep(c, Exec(c, s, Front(steps)), Last(steps));
    }
  }

  lemma FullChannelStep(c: Config, s: State, step: Step)
    requires c.Valid() && Inv(c, s) && s.shutdown.Finished? && s.flushCh.Some? && Enabled(s, step)
    ensures var t := Apply(c, s, step); t.flushCh == s.flushCh && |t.flushes| == |s.flushes| && t.shutdown.Finished?
  {
  }

  /** Some run gets another Flush request sent. */
  ghost predicate CanSendFlush(c: Config, s: State)
    requires c.Valid()
  {
    exists steps :: Runs(c, s, steps) && |Exec(c, s, steps).flushes| > |s.flushes|
  }

  /** After Shutdown a later Flush can get stuck, its request sent and never answered,
      if and only if the channel is empty; otherwise every one reports the closed queue
      or its own context. */
  lemma FlushAfterShutdownCanBeSent(c: Config, s: State)
    requires c.Valid() && Inv(c, s) && s.shutdown.Finished?
    ensures CanSendFlush(c, s) <==> s.flushCh.None?
  {
    if s.flushCh.None? {
      OneStep(c, s, FlushSend);
      assert |Exec(c, s, [FlushSend]).flushes| > |s.flushes|;
    } else {
      forall steps | Runs(c, s, steps) ensures |Exec(c, s, steps).flushes| == |s.flushes| {
        FullChannelStaysFull(c, s, steps);
      }
    }
  }

  /** The whole story from a new queue: it shuts down, a Flush is called after that, its
      request is sent, and no continuation answers it. */
  lemma FlushHangsAfterShutdown(c: Config) returns (steps: seq<Step>)
    requires c.Valid()
    ensures Runs(c, INIT, steps)
    ensures var t := Exec(c, INIT, steps); t.shutdown.Finished? && t.loop.Exited? && t.flushes == [Answered(0), Sent(0)]
    ensures forall more :: Runs(c, Exec(c, INIT, steps), more) ==>
      Hanging(Exec(c, Exec(c, INIT, steps), more), 1)
  {
    var shut, s, t := ShutdownWith(c, []);
    OneStep(c, t, FlushSend);
    ExecJoin(c, INIT, shut, [FlushSend]);
    steps := shut + [FlushSend];
    forall more | Runs(c, Exec(c, INIT, steps), more)
      ensures Hanging(Exec(c, Exec(c, INIT, steps), more), 1)
    {
      FlushAfterShutdownIsNeverAnswered(c, Exec(c, INIT, steps), more, 1);
    }
  }

  // ------------------------------------------------------- cancelled callers

  /** The steps that wake everyone on the condition variable's list. */
  predicate Broadcasts(c: Config, s: State, step: Step) {
    || step.CancelBroadcast?
    || step.ShutdownClose?
    || (step.TakeBuffer? && c.overflow == Block && s.pipe.buf != [])
  }

  ghost predicate Sleeps(s: State, t: nat) {
    t in s.callers && s.callers[t].Waiting?
  }

  /** A caller on the list is woken by a step if and only if that broadcasts. */
  lemma WokenExactlyByBroadcasts(c: Config, s: State, step: Step, t: nat)
    requires c.Valid() && Enabled(s, step) && Sleeps(s, t)
    ensures Sleeps(Apply(c, s, step), t) <==> !Broadcasts(c, s, step)
  {
  }

  /** No step of the run broadcasts. */
  predicate Quiet(c: Config, s: State, steps: seq<Step>)
    requires c.Valid() && Runs(c, s, steps)
    decreases |steps|
  {
    steps == []
    || (Quiet(c, s, Front(steps)) && !Broadcasts(c, Exec(c, s, Front(steps)), Last(steps)))
  }

  lemma {:induction false} SleepsUntilBroadcast(c: Config, s: State, steps: seq<Step>, t: nat)
    requires c.Valid() && Runs(c, s, steps) && Quiet(c, s, steps) && Sleeps(s, t)
    ensures Sleeps(Exec(c, s, steps), t)
    decreases |steps|
  {
    if steps != [] {
      SleepsUntilBroadcast(c, s, Front(steps), t);
      WokenExactlyByBroadcasts(c, Exec(c, s, Front(steps)), Last(steps), t);
    }
  }

  /** Asleep after the first k steps. */
  ghost predicate SleepsAfter(c: Config, s: State, steps: seq<Step>, k: nat, t: nat)
    requires c.Valid() && k <= |steps|
  {
    Runs(c, s, steps[..k]) && Sleeps(Exec(c, s, steps[..k]), t)
  }

  /** Asleep at every moment of the run. */
  ghost predicate SleepsThroughout(c: Config, s: State, steps: seq<Step>, t: nat)
    requires c.Valid()
  {
    forall k :: 0 <= k <= |steps| ==> SleepsAfter(c, s, steps, k, t)
  }

  lemma SleepsAfterFront(c: Config, s: State, steps: seq<Step>, k: nat, t: nat)
    requires c.Valid() && k < |steps|
    ensures SleepsAfter(c, s, Front(steps), k, t) <==> SleepsAfter(c, s, steps, k, t)
  {
    assert Front(steps)[..k] == steps[..k];
  }

  lemma ThroughoutSnoc(c: Config, s: State, steps: seq<Step>, t: nat)
    requires c.Valid() && Runs(c, s, steps) && steps != []
    ensures SleepsThroughout(c, s, steps, t) <==>
      SleepsThroughout(c, s, Front(steps), t) && Sleeps(Exec(c, s, steps), t)
  {
    forall k | 0 <= k < |steps| ensures SleepsAfter(c, s, Front(steps), k, t) <==> SleepsAfter(c, s, steps, k, t) {
      SleepsAfterFront(c, s, steps, k, t);
    }
    assert steps[..|steps|] == steps;
    assert SleepsAfter(c, s, steps, |steps|, t) <==> Sleeps(Exec(c, s, steps), t);
  }

  /** A caller sleeps through a whole run if and only if no step of it broadcasts. */
  lemma {:induction false} SleepsExactlyThroughQuiet(c: Config, s: State, steps: seq<Step>, t: nat)
    requires c.Valid() && Runs(c, s, steps) && Sleeps(s, t)
    ensures SleepsThroughout(c, s, steps, t) <==> Quiet(c, s, steps)
    decreases |steps|
  {
    if steps != [] {
      SleepsExactlyThroughQuiet(c, s, Front(steps), t);
      ThroughoutSnoc(c, s, steps, t);
      if Quiet(c, s, Front(steps)) {
        SleepsUntilBroadcast(c, s, Front(steps), t);
        WokenExactlyByBroadcasts(c, Exec(c, s, Front(steps)), Last(steps), t);
      }
    }
  }

  lemma ParkingStep(c: Config, s: State, step: Step)
    requires c.Valid() && Enabled(s, step) && s.mutex.Parking? && step != Park
    ensures Apply(c, s, step).mutex == s.mutex
  {
  }

  lemma {:induction false} ParkingPersists(c: Config, s: State, pre: seq<Step>)
    requires c.Valid() && Runs(c, s, pre) && s.mutex.Parking? && Park !in pre
    ensures Exec(c, s, pre).mutex == s.mutex
    decreases |pre|
  {
    if pre != [] {
      assert Last(pre) in pre && forall x :: x in Front(pre) ==> x in pre;
      ParkingPersists(c, s, Front(pre));
      ParkingStep(c, Exec(c, s, Front(pre)), Last(pre));
    }
  }

  /** A caller that has found its context alive and holds the mutex will be asleep once
      it has parked, whatever happens until then, its own cancellation included. */
  lemma ParksWhateverHappens(c: Config, s: State, pre: seq<Step>)
    requires c.Valid() && s.mutex.Parking? && Park !in pre && Runs(c, s, pre + [Park])
    ensures Sleeps(Exec(c, s, pre + [Park]), s.mutex.tid)
  {
    assert Front(pre + [Park]) == pre;
    ParkingPersists(c, s, pre);
  }

  /** A broadcast without the mutex can come too early: a caller that found its context
      alive, is cancelled before it is on the list, and sleeps on until somebody else
      broadcasts. */
  lemma CancellationIsLost(c: Config, msg: Message) returns (steps: seq<Step>)
    requires c.Valid() && c.overflow == Block
    ensures |steps| > 2 && steps[|steps| - 3..] == [Enqueue(1, msg, false), CancelBroadcast, Park]
    ensures Runs(c, INIT, steps) && Sleeps(Exec(c, INIT, steps), 1)
    ensures forall more :: Runs(c, Exec(c, INIT, steps), more) && Quiet(c, Exec(c, INIT, steps), more) ==>
      Sleeps(Exec(c, Exec(c, INIT, steps), more), 1)
  {
    var full := FillUp(c, c.maxSize);
    var s := Exec(c, INIT, full);
    var push := Enqueue(1, msg, false);
    TwoSteps(c, s, push, CancelBroadcast);
    var s2 := Exec(c, s, [push, CancelBroadcast]);
    OneStep(c, s2, Park);
    ExecJoin(c, s, [push, CancelBroadcast], [Park]);
    ExecJoin(c, INIT, full, [push, CancelBroadcast] + [Park]);
    steps := full + ([push, CancelBroadcast] + [Park]);
    forall more | Runs(c, Exec(c, INIT, steps), more) && Quiet(c, Exec(c, INIT, steps), more)
      ensures Sleeps(Exec(c, Exec(c, INIT, steps), more), 1)
    {
      SleepsUntilBroadcast(c, Exec(c, INIT, steps), more, 1);
    }
  }
}
