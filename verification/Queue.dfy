/** The per-provider delivery queue.

The queue is a mutex-protected buffer, one background run loop, a capacity-1
channel that carries flush requests to it, and any number of concurrent callers
of Enqueue, Flush and Shutdown. `QueueSections` holds what one critical section
computes and the class that performs it; `QueueMachine` interleaves those
sections with the channel operations; `QueueProofs` proves what holds in every
interleaving.
*/
module QueueSections {
  import opened Common

  /** Overflow policies. `Unknown` is any string the switch has no case for. */
  datatype Policy = DropOldest | DropNewest | Block | Unknown

  datatype Config = Config(batchSize: int, maxSize: int, overflow: Policy) {
    predicate Valid() { batchSize >= 1 && maxSize >= 1 }
  }

  const DEFAULT_BATCH_SIZE := 100
  const DEFAULT_MAX_QUEUE_SIZE := 10_000

  function PolicyOf(overflow: string): Policy {
    if overflow == "" || overflow == "drop_oldest" then DropOldest
    else if overflow == "drop_newest" then DropNewest
    else if overflow == "block" then Block
    else Unknown
  }

  /** The documented name of a policy. */
  function NameOf(policy: Policy): string {
    match policy
    case DropOldest => "drop_oldest"
    case DropNewest => "drop_newest"
    case Block => "block"
    case Unknown => "unknown"
  }

  /** Each documented name selects its policy and nothing else does, except that no name
      means drop_oldest. */
  lemma PolicyNames(overflow: string)
    ensures PolicyOf("") == DropOldest
    ensures overflow != "" && PolicyOf(overflow) != Unknown ==> NameOf(PolicyOf(overflow)) == overflow
    ensures forall p :: p != Unknown ==> PolicyOf(NameOf(p)) == p
  {
    var o, n, b := NameOf(DropOldest), NameOf(DropNewest), NameOf(Block);
    assert o != "" && n != "" && b != "" && |o| == |n| == 11 && |b| == 5 && o[5] != n[5];
  }

  /** The defaulting NewQueue applies to the caller's configuration. */
  function Normalize(batchSize: int, maxSize: int, overflow: string): (c: Config)
    ensures c.Valid() && c.overflow == PolicyOf(overflow)
    ensures c.batchSize == batchSize || (batchSize <= 0 && c.batchSize == DEFAULT_BATCH_SIZE)
    ensures c.maxSize == maxSize || (maxSize <= 0 && c.maxSize == DEFAULT_MAX_QUEUE_SIZE)
  {
    Config(
      if batchSize <= 0 then DEFAULT_BATCH_SIZE else batchSize,
      if maxSize <= 0 then DEFAULT_MAX_QUEUE_SIZE else maxSize,
      PolicyOf(overflow))
  }

  /** How one pass through Enqueue's critical section ends. */
  datatype Outcome = Appended | Discarded | Closed | Cancelled | MustWait

  datatype Section<+M> = Section(outcome: Outcome, buf: seq<M>, evicted: seq<M>)

  /** One pass through Enqueue's critical section: from acquiring the mutex (on
      entry, or on waking from the condition variable) to returning or waiting. */
  function EnqueueSection<M>(c: Config, closed: bool, buf: seq<M>, m: M, cancelled: bool): Section<M>
    requires c.Valid()
  {
    if closed then Section(Closed, buf, [])
    else if c.overflow == DropOldest && |buf| >= c.maxSize then Section(Appended, buf[1..] + [m], [buf[0]])
    else if c.overflow == DropNewest && |buf| >= c.maxSize then Section(Discarded, buf, [])
    else if c.overflow == Block && cancelled then Section(Cancelled, buf, [])
    else if c.overflow == Block && |buf| >= c.maxSize then Section(MustWait, buf, [])
    else Section(Appended, buf + [m], [])
  }

  /** A request on the flush channel: a fire-and-forget trigger, or the request of
      one Flush call, which is answered on that call's own channel. */
  datatype Request = Trigger | FlushOf(fid: nat)

  /** The fields the queue's methods update. Each method is one critical section
      or one channel operation. */
  class Queue<T> {
    const cfg: Config
    var buf: seq<T>
    var closed: bool
    var flushCh: Option<Request>
    /** The callers on the condition variable's list. */
    var parked: set<nat>

    constructor (batchSize: int, maxSize: int, overflow: string)
      ensures cfg == Normalize(batchSize, maxSize, overflow)
      ensures buf == [] && !closed && flushCh == None && parked == {}
    {
      cfg := Normalize(batchSize, maxSize, overflow);
      buf, closed, flushCh, parked := [], false, None, {};
    }

    /** One pass through the locked section. */
    method Enqueue(msg: T, cancelled: bool) returns (outcome: Outcome)
      requires cfg.Valid()
      modifies this`buf
      ensures outcome == Closed <==> closed
      ensures outcome == Cancelled <==> !closed && cfg.overflow == Block && cancelled
      ensures outcome == MustWait <==> !closed && cfg.overflow == Block && !cancelled && old(|buf|) >= cfg.maxSize
      ensures outcome == Discarded <==> !closed && cfg.overflow == DropNewest && old(|buf|) >= cfg.maxSize
      ensures outcome != Appended ==> buf == old(buf)
      ensures outcome == Appended ==>
        buf == (if cfg.overflow == DropOldest && old(|buf|) >= cfg.maxSize then old(buf)[1..] else old(buf)) + [msg]
      ensures var s := EnqueueSection(cfg, closed, old(buf), msg, cancelled); outcome == s.outcome && buf == s.buf
    {
      if closed {
        return Closed;
      }
      match cfg.overflow {
        case DropOldest =>
          if |buf| >= cfg.maxSize {
            buf := buf[1..];
          }
        case DropNewest =>
          if |buf| >= cfg.maxSize {
            return Discarded;
          }
        case Block =>
          if |buf| >= cfg.maxSize && !cancelled {
            return MustWait;
          }
          if cancelled {
            return Cancelled;
          }
        case Unknown =>
      }
      buf := buf + [msg];
      return Appended;
    }

    /** The non-blocking send: a request is dropped when one is already pending. */
    method Signal()
      modifies this`flushCh
      ensures flushCh == if |buf| >= cfg.batchSize && old(flushCh) == None then Some(Trigger) else old(flushCh)
    {
      if |buf| >= cfg.batchSize && flushCh == None {
        flushCh := Some(Trigger);
      }
    }

    /** cond.Wait puts the caller on the list and releases the mutex. */
    method Park(tid: nat)
      modifies this`parked
      ensures parked == old(parked) + {tid}
    {
      parked := parked + {tid};
    }

    /** doFlush's critical section: the whole buffer changes hands at once, and under
        the block policy everyone on the list is woken. */
    method TakeBuffer() returns (batch: seq<T>)
      modifies this`buf, this`parked
      ensures batch == old(buf) && buf == []
      ensures parked == if cfg.overflow == Block && old(buf) != [] then {} else old(parked)
    {
      batch := buf;
      if |buf| == 0 {
        return;
      }
      buf := [];
      if cfg.overflow == Block {
        parked := {};
      }
    }

    method Close()
      modifies this`closed, this`parked
      ensures closed && parked == {}
    {
      closed, parked := true, {};
    }
  }
}

/** Every interleaving of the queue's critical sections and channel operations. */
module QueueMachine {
  import opened Common
  import opened QueueSections

  /** The queued message: one analytics call of five kinds. */
  datatype Message =
    | Track(body: string)
    | Identify(body: string)
    | Group(body: string)
    | Page(body: string)
    | Alias(body: string)

  /** A buffered message with its position in the order of appends. */
  datatype Entry = Entry(id: nat, msg: Message)

  /** Where the messages are. `buf` is the queue's buffer and `hand` the batch
      doFlush holds while fn runs. The rest is history: the appends in order, the
      messages whose fn call returned, the drop-oldest victims, and the number of
      appends at the last drain and at the last completed one. */
  datatype Pipe = Pipe(
    buf: seq<Entry>,
    hand: seq<Entry>,
    log: seq<Entry>,
    delivered: seq<Entry>,
    evicted: seq<Entry>,
    drained: nat,
    settled: nat)

  function Accept(p: Pipe, r: Section<Entry>, entry: Entry): Pipe {
    p.(buf := r.buf,
       evicted := p.evicted + r.evicted,
       log := if r.outcome == Appended then p.log + [entry] else p.log)
  }

  function Take(p: Pipe): Pipe {
    p.(hand := p.buf, buf := [], drained := |p.log|)
  }

  function Settle(p: Pipe): Pipe {
    p.(delivered := p.delivered + p.hand, hand := [], settled := p.drained)
  }

  /** An Enqueue call parked on the condition variable, or woken and about to
      take the mutex again. */
  datatype Caller = Waiting(msg: Message) | Woken(msg: Message)

  /** The run loop. `req` is None for a tick of the timer. */
  datatype Loop =
    | Selecting
    | Draining(req: Option<Request>)
    | Calling(req: Option<Request>)
    | Replying(req: Option<Request>)
    | Exited

  /** A Flush call whose request was sent; `mark` is the number of messages that
      had been appended at that moment. */
  datatype FlushCall =
    | Sent(mark: nat)
    | Answered(mark: nat)
    | Returned(mark: nat)
    | Abandoned(mark: nat)

  /** The one-shot body of Shutdown. `drain` is the mark of its own flush when
      that flush came back on its channel. */
  datatype Shutdown =
    | NotStarted
    | Flushing(fid: nat)
    | Flushed(drain: Option<nat>)
    | MarkedClosed(drain: Option<nat>)
    | Stopped(drain: Option<nat>)
    | Finished(drain: Option<nat>)

  /** What an Enqueue call has returned, in the order of the returns. */
  datatype Return = Return(tid: nat, msg: Message, outcome: Outcome)

  /** The mutex, where a critical section is more than one step: an Enqueue between its
      append and its signal, or between finding the buffer full with its context alive
      and getting on the condition variable's list. */
  datatype Mutex = Free | Signalling | Parking(tid: nat, msg: Message)

  datatype State = State(
    pipe: Pipe,
    closed: bool,
    flushCh: Option<Request>,
    stopped: bool,
    loop: Loop,
    mutex: Mutex,
    callers: map<nat, Caller>,
    flushes: seq<FlushCall>,
    shutdown: Shutdown,
    answers: seq<Return>)

  const INIT := State(Pipe([], [], [], [], [], 0, 0), false, None, false, Selecting, Free, map[], [], NotStarted, [])

  /** `cancelled` is what ctx.Err() answers at that moment. The watcher of a cancelled
      caller broadcasts without the mutex. */
  datatype Step =
    | Enqueue(tid: nat, msg: Message, cancelled: bool)
    | Resume(tid: nat, cancelled: bool)
    | CancelBroadcast
    | Park
    | Signal
    | Tick
    | Receive
    | TakeBuffer
    | FnReturn
    | Reply
    | LoopExit
    | FlushSend
    | FlushReturn(fid: nat)
    | FlushAbandon(fid: nat)
    | ShutdownFlush
    | ShutdownFlushUnsent
    | ShutdownFlushDone
    | ShutdownFlushAbandon
    | ShutdownClose
    | ShutdownStop
    | ShutdownWait

  predicate Enabled(s: State, step: Step) {
    match step
    case Enqueue(tid, _, _) => s.mutex.Free? && tid !in s.callers
    case Resume(tid, _) => s.mutex.Free? && tid in s.callers && s.callers[tid].Woken?
    case CancelBroadcast => true
    case Park => s.mutex.Parking?
    case Signal => s.mutex.Signalling?
    case Tick => s.loop.Selecting?
    case Receive => s.loop.Selecting? && s.flushCh.Some?
    case TakeBuffer => s.mutex.Free? && s.loop.Draining?
    case FnReturn => s.loop.Calling?
    case Reply => s.loop.Replying?
    case LoopExit => s.loop.Selecting? && s.stopped
    case FlushSend => s.flushCh.None?
    case FlushReturn(fid) => fid < |s.flushes| && s.flushes[fid].Answered? && s.shutdown != Flushing(fid)
    case FlushAbandon(fid) =>
      fid < |s.flushes| && (s.flushes[fid].Sent? || s.flushes[fid].Answered?) && s.shutdown != Flushing(fid)
    case ShutdownFlush => s.shutdown.NotStarted? && s.flushCh.None?
    case ShutdownFlushUnsent => s.shutdown.NotStarted?
    case ShutdownFlushDone =>
      s.shutdown.Flushing? && s.shutdown.fid < |s.flushes| && s.flushes[s.shutdown.fid].Answered?
    case ShutdownFlushAbandon => s.shutdown.Flushing?
    case ShutdownClose => s.mutex.Free? && s.shutdown.Flushed?
    case ShutdownStop => s.shutdown.MarkedClosed?
    case ShutdownWait => s.shutdown.Stopped? && s.loop.Exited?
  }

  /** cond.Broadcast: every parked caller is woken. */
  function WakeAll(callers: map<nat, Caller>): map<nat, Caller> {
    map t | t in callers :: Woken(callers[t].msg)
  }

  /** An Enqueue pass by caller `tid`, new or woken. */
  function EnqueuePass(c: Config, s: State, tid: nat, msg: Message, cancelled: bool): State
    requires c.Valid()
  {
    var entry := Entry(|s.pipe.log|, msg);
    var r := EnqueueSection(c, s.closed, s.pipe.buf, entry, cancelled);
    s.(pipe := Accept(s.pipe, r, entry),
       mutex := if r.outcome == MustWait then Parking(tid, msg)
                else if r.outcome == Appended && |r.buf| >= c.batchSize then Signalling
                else Free,
       callers := s.callers - {tid},
       answers := if r.outcome == MustWait then s.answers else s.answers + [Return(tid, msg, r.outcome)])
  }

  /** The run loop takes the whole buffer, or finds it empty. */
  function Drain(c: Config, s: State): State
    requires s.loop.Draining?
  {
    if s.pipe.buf == [] then s.(loop := Replying(s.loop.req))
    else s.(loop := Calling(s.loop.req),
            pipe := Take(s.pipe),
            callers := if c.overflow == Block then WakeAll(s.callers) else s.callers)
  }

  /** The reply goes to a one-slot channel of the Flush call, if there is one. */
  function Answer(s: State): State
    requires s.loop.Replying?
  {
    match s.loop.req
    case Some(FlushOf(fid)) =>
      if fid < |s.flushes| && s.flushes[fid].Sent?
      then s.(loop := Selecting, flushes := s.flushes[fid := Answered(s.flushes[fid].mark)])
      else s.(loop := Selecting)
    case _ => s.(loop := Selecting)
  }

  function Apply(c: Config, s: State, step: Step): State
    requires c.Valid() && Enabled(s, step)
  {
    match step
    case Enqueue(tid, msg, cancelled) => EnqueuePass(c, s, tid, msg, cancelled)
    case Resume(tid, cancelled) => EnqueuePass(c, s, tid, s.callers[tid].msg, cancelled)
    case CancelBroadcast => s.(callers := WakeAll(s.callers))
    case Park => s.(mutex := Free, callers := s.callers[s.mutex.tid := Waiting(s.mutex.msg)])
    case Signal => s.(mutex := Free, flushCh := if s.flushCh.None? then Some(Trigger) else s.flushCh)
    case Tick => s.(loop := Draining(None))
    case Receive => s.(loop := Draining(Some(s.flushCh.value)), flushCh := None)
    case TakeBuffer => Drain(c, s)
    case FnReturn => s.(loop := Replying(s.loop.req), pipe := Settle(s.pipe))
    case Reply => Answer(s)
    case LoopExit => s.(loop := Exited)
    case FlushSend => s.(flushCh := Some(FlushOf(|s.flushes|)), flushes := s.flushes + [Sent(|s.pipe.log|)])
    case FlushReturn(fid) => s.(flushes := s.flushes[fid := Returned(s.flushes[fid].mark)])
    case FlushAbandon(fid) => s.(flushes := s.flushes[fid := Abandoned(s.flushes[fid].mark)])
    case ShutdownFlush =>
      s.(flushCh := Some(FlushOf(|s.flushes|)), flushes := s.flushes + [Sent(|s.pipe.log|)],
         shutdown := Flushing(|s.flushes|))
    case ShutdownFlushUnsent => s.(shutdown := Flushed(None))
    case ShutdownFlushDone => s.(shutdown := Flushed(Some(s.flushes[s.shutdown.fid].mark)))
    case ShutdownFlushAbandon => s.(shutdown := Flushed(None))
    case ShutdownClose => s.(closed := true, callers := WakeAll(s.callers), shutdown := MarkedClosed(s.shutdown.drain))
    case ShutdownStop => s.(stopped := true, shutdown := Stopped(s.shutdown.drain))
    case ShutdownWait => s.(shutdown := Finished(s.shutdown.drain))
  }

  /** A schedule that can be taken step by step from `s`. */
  predicate Runs(c: Config, s: State, steps: seq<Step>)
    requires c.Valid()
    decreases |steps|, 0
  {
    steps == [] || (Runs(c, s, Front(steps)) && Enabled(Exec(c, s, Front(steps)), Last(steps)))
  }

  function Exec(c: Config, s: State, steps: seq<Step>): State
    requires c.Valid() && Runs(c, s, steps)
    decreases |steps|, 1
  {
    if steps == [] then s else Apply(c, Exec(c, s, Front(steps)), Last(steps))
  }

  function Front(steps: seq<Step>): (front: seq<Step>)
    requires steps != []
    ensures |front| == |steps| - 1
  {
    steps[..|steps| - 1]
  }

  function Last(steps: seq<Step>): Step
    requires steps != []
  {
    steps[|steps| - 1]
  }
}
