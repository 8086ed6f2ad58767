/**
 * What a bounded channel is to those who use it: a FIFO queue with atomic operations. The
 * channel of `Chan` refines it, and the pool of `Pool` uses nothing else.
 */
module Queues {
  import opened Bytes
  import Chan
  import Pool
  import Worker

  /** Items in order; whether a sender, and a receiver, is left. */
  datatype Queue<T> = Queue(items: seq<T>, senders: bool, receivers: bool, capacity: nat)

  datatype Op<T> =
    | Put(item: T)
    | Refuse(back: T)
    | Get(item: T)
    | End
    | HangUp
    | Deafen

  /** When an operation can happen. A call that can do none of its own waits. */
  predicate Can<T(==)>(q: Queue<T>, op: Op<T>) {
    match op
    case Put(_) => q.receivers && |q.items| < q.capacity
    case Refuse(_) => !q.receivers
    case Get(v) => q.items != [] && q.items[0] == v
    case End => q.items == [] && !q.senders
    case HangUp => q.senders
    case Deafen => q.receivers
  }

  function Do<T(==)>(q: Queue<T>, op: Op<T>): (r: Queue<T>)
    requires Can(q, op)
  {
    match op
    case Put(v) => q.(items := q.items + [v])
    case Refuse(_) => q
    case Get(_) => q.(items := q.items[1..])
    case End => q
    case HangUp => q.(senders := false)
    case Deafen => q.(receivers := false)
  }

  // ---------------------------------------------------------------- the channel refines it

  function QueueOf<T>(s: Chan.System<T>): (q: Queue<T>) {
    Queue(s.q.items, s.q.senders > 0, s.q.receivers > 0, s.capacity)
  }

  /** The operation a step completes, if it completes one. */
  ghost function OpOf<T>(s: Chan.System<T>, step: Chan.Step<T>): (op: Option<Op<T>>)
    requires Chan.Enabled(s, step)
  {
    match step
    case LockSend(t) =>
      if s.q.receivers == 0 then Some(Refuse(s.sending[t]))
      else if |s.q.items| < s.capacity then Some(Put(s.sending[t]))
      else None
    case LockRecv(_) =>
      if s.q.items != [] then Some(Get(s.q.items[0]))
      else if s.q.senders == 0 then Some(End)
      else None
    case DropSender(_, _) => if s.q.senders == 1 then Some(HangUp) else None
    case DropReceiver(_, _) => if s.q.receivers == 1 then Some(Deafen) else None
    case _ => None
  }

  /** The call of a thread is over, as far as its caller can tell: it neither tries nor sleeps. */
  predicate Waiting<T>(s: Chan.System<T>, t: Chan.Thread) {
    t in s.sendTrying + s.sendAsleep + s.recvTrying + s.recvAsleep
  }

  /** Taking the lock either completes the caller's operation or puts the caller to sleep. */
  lemma LockCompletes<T>(s: Chan.System<T>, step: Chan.Step<T>)
    requires Chan.Inv(s) && Chan.Enabled(s, step) && (step.LockSend? || step.LockRecv?)
    ensures OpOf(s, step).Some? <==> !Waiting(Chan.Apply(s, step), step.t)
  {
    Chan.PlacedApart(s);
    hide Chan.Counted, Chan.Covered, Chan.Fifo;
  }

  /** One step of the channel is one operation, or none. */
  ghost predicate Refines<T>(s: Chan.System<T>, step: Chan.Step<T>)
    requires Chan.Enabled(s, step)
  {
    match OpOf(s, step)
    case None => QueueOf(Chan.Apply(s, step)) == QueueOf(s)
    case Some(op) => Can(QueueOf(s), op) && QueueOf(Chan.Apply(s, step)) == Do(QueueOf(s), op)
  }

  lemma LockRefines<T>(s: Chan.System<T>, step: Chan.Step<T>)
    requires Chan.Enabled(s, step) && (step.LockSend? || step.LockRecv?)
    ensures Refines(s, step)
  {
  }

  lemma HandleRefines<T>(s: Chan.System<T>, step: Chan.Step<T>)
    requires (s.sendHandles != {} ==> s.q.senders > 0) && (s.recvHandles != {} ==> s.q.receivers > 0)
    requires Chan.Enabled(s, step)
    requires step.CloneSender? || step.CloneReceiver? || step.DropSender? || step.DropReceiver?
    ensures Refines(s, step)
  {
    hide Chan.Busy, Chan.Unused;
  }

  lemma WakingRefines<T>(s: Chan.System<T>, step: Chan.Step<T>)
    requires Chan.Enabled(s, step) && !step.LockSend? && !step.LockRecv?
    requires !step.CloneSender? && !step.CloneReceiver? && !step.DropSender? && !step.DropReceiver?
    ensures Refines(s, step)
  {
    hide Chan.Busy, Chan.Wakes;
  }

  /**
   * Every step of every thread is one atomic operation of the queue, with the caller's own
   * value, or none at all: what happens between taking the lock and waking others is invisible.
   */
  lemma ChannelRefinesQueue<T>(s: Chan.System<T>, step: Chan.Step<T>)
    requires Chan.Inv(s) && Chan.Enabled(s, step)
    ensures Refines(s, step)
  {
    Chan.LiveHandle(s);
    hide Chan.Inv, Chan.Enabled, Refines;
    match step
    case LockSend(_) => LockRefines(s, step);
    case LockRecv(_) => LockRefines(s, step);
    case CloneSender(_, _) => HandleRefines(s, step);
    case CloneReceiver(_, _) => HandleRefines(s, step);
    case DropSender(_, _) => HandleRefines(s, step);
    case DropReceiver(_, _) => HandleRefines(s, step);
    case _ => WakingRefines(s, step);
  }

  // ---------------------------------------------------------------- the pool uses nothing else

  /** The queue of jobs to one worker, as the pool sees it. */
  function JobQueue(p: Pool.Pool, i: nat): (q: Queue<Worker.Job>)
    requires i < |p.workers| == |p.queues|
  {
    Queue(p.queues[i], p.jobsOpen, !p.workers[i].status.Exited?, Pool.QUEUE_DEPTH)
  }

  /** The queue of events to the reader, who listens as long as the pool exists. */
  ghost function EventQueue(p: Pool.Pool): (q: Queue<Pool.WorkerEvent>) {
    Queue(p.events, exists i :: 0 <= i < |p.workers| && !p.workers[i].status.Exited?, true, Pool.EventCapacity(p))
  }

  function SentJob(p: Pool.Pool, step: Pool.Step): (job: Worker.Job)
    requires p.current.Some? && (step.SendRows? ==> p.todo != [] && p.todo[0].CopyRows?)
    requires step.SendOpen? || step.SendRows? || step.SendClose?
  {
    match step
    case SendOpen => Worker.Open(p.current.value.ctx)
    case SendRows => Worker.Rows(p.current.value.ctx.generation, p.todo[0].payload)
    case SendClose => Worker.Close(p.current.value.ctx.generation)
  }

  /** Sending a job is putting it into the worker's queue; the other queues stay. */
  lemma SendPuts(p: Pool.Pool, step: Pool.Step)
    requires Pool.Sized(p) && Pool.Enabled(p, step) && (step.SendOpen? || step.SendRows? || step.SendClose?)
    ensures var k := Pool.Addressee(p).value;
      var q := Pool.Apply(p, step);
      && Can(JobQueue(p, k), Put(SentJob(p, step)))
      && JobQueue(q, k) == Do(JobQueue(p, k), Put(SentJob(p, step)))
      && (forall j :: 0 <= j < |p.workers| && j != k ==> JobQueue(q, j) == JobQueue(p, j))
      && EventQueue(q) == EventQueue(p)
  {
  }

  /** Every queue to a worker but those in `but` is as it was. */
  ghost predicate JobsKept(p: Pool.Pool, q: Pool.Pool, but: set<nat>)
    requires Pool.Sized(p)
  {
    && |q.workers| == |q.queues| == |p.workers|
    && forall j :: 0 <= j < |p.workers| && j !in but ==> JobQueue(q, j) == JobQueue(p, j)
  }

  /** Taking a job is getting the oldest; a worker ends for want of jobs only at the queue's end. */
  lemma TakeGets(p: Pool.Pool, i: nat)
    requires Pool.Sized(p)
    ensures i < |p.workers| && p.workers[i].status.Idle? && p.queues[i] != [] ==>
      && Pool.Enabled(p, Pool.Take(i)) && Can(JobQueue(p, i), Get(p.queues[i][0]))
      && var q := Pool.Apply(p, Pool.Take(i));
         JobQueue(q, i) == Do(JobQueue(p, i), Get(p.queues[i][0])) && JobsKept(p, q, {i}) && EventQueue(q) == EventQueue(p)
    ensures i < |p.workers| && p.workers[i].status.Idle? ==>
      (Pool.Enabled(p, Pool.NoMoreJobs(i)) <==> Can(JobQueue(p, i), End))
  {
  }

  /** A dispatch fails only where the queue refuses, and gets the oldest event. */
  lemma DispatchIsRefused(p: Pool.Pool, job: Worker.Job)
    requires Pool.Sized(p) && Pool.Enabled(p, Pool.DispatchFails)
    ensures Can(JobQueue(p, Pool.Addressee(p).value), Refuse(job)) && Can(EventQueue(p), Get(p.events[0]))
    ensures var q := Pool.Apply(p, Pool.DispatchFails);
      EventQueue(q) == Do(EventQueue(p), Get(p.events[0])) && JobsKept(p, q, {})
  {
  }

  /** A report is put into the queue of events, by a worker that goes on. */
  lemma ReportPuts(p: Pool.Pool, i: nat)
    requires Pool.Sized(p) && Pool.Enabled(p, Pool.Report(i)) && p.workers[i].status.event.Closed?
    ensures var q := Pool.Apply(p, Pool.Report(i));
      && Can(EventQueue(p), Put(p.workers[i].status.event))
      && EventQueue(q) == Do(EventQueue(p), Put(p.workers[i].status.event)) && JobsKept(p, q, {})
  {
    var q := Pool.Apply(p, Pool.Report(i));
    assert !p.workers[i].status.Exited? && !q.workers[i].status.Exited?;
  }

  /** The reader collects the oldest event. */
  lemma CollectGets(p: Pool.Pool)
    requires Pool.Sized(p) && Pool.Enabled(p, Pool.Collect)
    ensures var q := Pool.Apply(p, Pool.Collect);
      && Can(EventQueue(p), Get(p.events[0])) && EventQueue(q) == Do(EventQueue(p), Get(p.events[0]))
      && JobsKept(p, q, {})
  {
    CollectTakes(p);
    hide Pool.Apply, Pool.Enabled;
  }

  lemma CollectTakes(p: Pool.Pool)
    requires Pool.Sized(p) && Pool.Enabled(p, Pool.Collect)
    ensures p.events != []
    ensures var q := Pool.Apply(p, Pool.Collect);
      q.workers == p.workers && q.queues == p.queues && q.jobsOpen == p.jobsOpen && q.events == p.events[1..]
  {
  }

  /** The reader finds the channel abandoned only at the end of the queue. */
  lemma GoneAtEnd(p: Pool.Pool)
    requires Pool.Sized(p) && Pool.Enabled(p, Pool.ChannelGone)
    ensures Can(EventQueue(p), End)
  {
  }

  /** Dropping the sending side hangs up on every worker. */
  lemma DropHangsUp(p: Pool.Pool)
    requires Pool.Sized(p) && Pool.Enabled(p, Pool.DropJobs)
    ensures var q := Pool.Apply(p, Pool.DropJobs);
      && EventQueue(q) == EventQueue(p)
      && |q.workers| == |q.queues| == |p.workers|
      && forall j :: 0 <= j < |p.workers| ==>
           Can(JobQueue(p, j), HangUp) && JobQueue(q, j) == Do(JobQueue(p, j), HangUp)
  {
  }

  /** Another worker than `i` is still there. */
  ghost predicate Others(p: Pool.Pool, i: nat) {
    exists j :: 0 <= j < |p.workers| && j != i && !p.workers[j].status.Exited?
  }

  /**
   * A worker that exits deafens its own queue, and hangs up on the reader if it is the last;
   * if it had an error to report, only after putting it.
   */
  lemma ExitDeafens(p: Pool.Pool, step: Pool.Step)
    requires Pool.Sized(p) && Pool.Enabled(p, step)
    requires step.NoMoreJobs? || (step.Report? && p.workers[step.i].status.event.Failed?)
    ensures var q := Pool.Apply(p, step);
      var said := if step.Report? then Do(EventQueue(p), Put(p.workers[step.i].status.event)) else EventQueue(p);
      && Can(JobQueue(p, step.i), Deafen) && JobQueue(q, step.i) == Do(JobQueue(p, step.i), Deafen)
      && JobsKept(p, q, {step.i})
      && Can(said, HangUp) && EventQueue(q) == if Others(p, step.i) then said else Do(said, HangUp)
  {
    var i, q := step.i, Pool.Apply(p, step);
    assert p.workers[i].status.Exited? == false && q.workers[i].status.Exited?;
    if Others(p, i) {
      var j :| 0 <= j < |p.workers| && j != i && !p.workers[j].status.Exited?;
      assert q.workers[j] == p.workers[j];
    }
  }

  /** The pool asks nothing else of its queues. */
  lemma Untouched(p: Pool.Pool, step: Pool.Step)
    requires Pool.Sized(p) && Pool.Enabled(p, step)
    requires !step.SendOpen? && !step.SendRows? && !step.SendClose? && !step.DispatchFails? && !step.Collect?
    requires !step.DropJobs? && !step.Take? && !step.NoMoreJobs? && !step.Report?
    ensures JobsKept(p, Pool.Apply(p, step), {}) && EventQueue(Pool.Apply(p, step)) == EventQueue(p)
  {
    hide Pool.Perform, Pool.Stages;
    var q := Pool.Apply(p, step);
    forall j | 0 <= j < |p.workers|
      ensures |q.workers| == |p.workers| && (q.workers[j].status.Exited? <==> p.workers[j].status.Exited?)
    {
    }
  }
}
