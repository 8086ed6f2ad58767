/** What every run of the pool keeps. */
module PoolInv {
  import opened Bytes
  import opened Scan
  import opened Worker
  import opened Pool
  import opened Delta
  import CopyText

  // ---------------------------------------------------------------- jobs sent to a worker

  /** The rows of the payloads in a job list. */
  function LogRows(log: seq<Job>): (rows: seq<seq<byte>>)
    decreases |log|
  {
    if log == [] then []
    else
      var last := log[|log| - 1];
      LogRows(log[..|log| - 1]) + (if last.Rows? then RowsOf(last.bytes) else [])
  }

  lemma LogRowsSnoc(log: seq<Job>, job: Job)
    ensures LogRows(log + [job]) == LogRows(log) + (if job.Rows? then RowsOf(job.bytes) else [])
  {
    assert (log + [job])[..|log|] == log;
  }

  predicate ClosedLog(log: seq<Job>) {
    log != [] && log[|log| - 1].Close?
  }

  /** An opening, then payloads of that block, then perhaps its closing. */
  ghost predicate LogShape(log: seq<Job>, ctx: Option<Ctx>) {
    log != [] ==>
      && ctx.Some?
      && log[0] == Open(ctx.value)
      && forall k :: 0 < k < |log| ==>
           && !log[k].Open? && log[k].generation == ctx.value.generation
           && (log[k].Close? ==> k == |log| - 1)
  }

  function Held(m: Memory, g: nat): (rows: seq<Row>) {
    if g in m.blocks then Content(m.blocks[g]) else []
  }

  /** What a worker remembers after doing the jobs in `used`. */
  ghost predicate Remembers(m: Memory, used: seq<Job>, ctx: Option<Ctx>) {
    if used == [] || ClosedLog(used) then m == NO_MEMORY
    else
      && ctx.Some?
      && m.ctxs == map[ctx.value.generation := ctx.value]
      && m.blocks.Keys <= {ctx.value.generation}
      && AllOk(Held(m, ctx.value.generation)) == DecodeEach(LogRows(used), ctx.value.arity, ctx.value.limits)
  }

  /** An acknowledgement carrying exactly the rows the worker was sent, decoded. */
  ghost predicate IsAck(e: WorkerEvent, log: seq<Job>, ctx: Option<Ctx>) {
    && e.Closed? && ctx.Some?
    && e.generation == ctx.value.generation
    && AllOk(FileRows(e.files)) == DecodeEach(LogRows(log), ctx.value.arity, ctx.value.limits)
    && e.count == |FileRows(e.files)|
  }

  // ---------------------------------------------------------------- one worker

  /** Everything that concerns one worker. */
  datatype View = View(
    i: nat,
    w: WorkerState,
    queue: seq<Job>,
    log: seq<Job>,
    ctx: Option<Ctx>,
    acked: bool,
    mail: Option<WorkerEvent>,
    returned: bool)

  /** Jobs the worker still has to do, the one in hand first. */
  function Jobs(v: View): seq<Job> {
    (if v.w.status.Working? then [v.w.status.job] else []) + v.queue
  }

  ghost predicate LiveInv(v: View) {
    var jobs := Jobs(v);
    && |jobs| <= |v.log|
    && jobs == v.log[|v.log| - |jobs|..]
    && Remembers(v.w.memory, v.log[..|v.log| - |jobs|], v.ctx)
    && v.w.recorded.None?
    && (v.mail.Some? || v.acked ==> jobs == [] && ClosedLog(v.log))
    && (v.mail.Some? ==> !v.acked && IsAck(v.mail.value, v.log, v.ctx))
    && (!v.returned && jobs == [] && ClosedLog(v.log) ==> v.acked || v.mail.Some?)
  }

  ghost predicate WorkerInv(v: View) {
    && LogShape(v.log, v.ctx)
    && (v.mail.Some? ==> v.mail.value.worker == v.i)
    && match v.w.status
       case Idle => LiveInv(v)
       case Working(_) => LiveInv(v)
       case Reporting(e) =>
         && e.worker == v.i
         && v.mail.None? && !v.acked
         && (match e
             case Closed(_, _, _, _) =>
               v.queue == [] && ClosedLog(v.log) && IsAck(e, v.log, v.ctx)
               && v.w.memory == NO_MEMORY && v.w.recorded.None?
             case Failed(_, error) => v.w.recorded == Some(error))
       case Exited =>
         && (!v.returned ==> !v.acked && v.mail.Some? && v.mail.value.Failed?)
         && (v.mail.Some? && v.mail.value.Failed? ==> v.w.recorded == Some(v.mail.value.error))
  }

  /** The undelivered event of worker `i`. */
  function EventOf(events: seq<WorkerEvent>, i: nat): (e: Option<WorkerEvent>)
    decreases |events|
  {
    if events == [] then None
    else if events[0].worker == i then Some(events[0])
    else EventOf(events[1..], i)
  }

  function ViewOf(p: Pool, i: nat): (v: View)
    requires i < |p.workers| == |p.queues| == |p.log|
  {
    View(i, p.workers[i], p.queues[i], p.log[i],
         if p.current.Some? then Some(p.current.value.ctx) else None,
         i in p.acks, EventOf(p.events, i), p.phase.Returned?)
  }

  /** At most one undelivered event per worker. */
  ghost predicate OneEach(events: seq<WorkerEvent>, n: nat) {
    && (forall a :: 0 <= a < |events| ==> events[a].worker < n)
    && (forall a, b :: 0 <= a < b < |events| ==> events[a].worker != events[b].worker)
  }

  lemma {:induction false} EventOfSnoc(events: seq<WorkerEvent>, e: WorkerEvent, i: nat)
    ensures EventOf(events + [e], i) ==
      if EventOf(events, i).Some? then EventOf(events, i) else if e.worker == i then Some(e) else None
    decreases |events|
  {
    if events == [] {
      assert (events + [e])[1..] == [];
    } else {
      EventOfSnoc(events[1..], e, i);
      assert (events + [e])[1..] == events[1..] + [e];
    }
  }

  lemma {:induction false} EventOfNone(events: seq<WorkerEvent>, i: nat)
    ensures EventOf(events, i).None? <==> forall a :: 0 <= a < |events| ==> events[a].worker != i
    ensures EventOf(events, i).Some? ==> EventOf(events, i).value in events && EventOf(events, i).value.worker == i
    decreases |events|
  {
    if events != [] && events[0].worker != i {
      EventOfNone(events[1..], i);
    }
  }

  lemma FirstEvent(events: seq<WorkerEvent>)
    ensures events != [] ==> EventOf(events, events[0].worker) == Some(events[0])
  {
  }

  lemma EventOfTail(events: seq<WorkerEvent>, n: nat, i: nat)
    requires events != [] && OneEach(events, n)
    ensures EventOf(events, events[0].worker) == Some(events[0])
    ensures EventOf(events[1..], events[0].worker) == None
    ensures i != events[0].worker ==> EventOf(events[1..], i) == EventOf(events, i)
    ensures OneEach(events[1..], n)
  {
    EventOfNone(events[1..], events[0].worker);
  }

  /** One event per worker is at most as many events as workers: the channel has room. */
  lemma {:induction false} EventsFit(events: seq<WorkerEvent>, n: nat)
    requires OneEach(events, n)
    ensures |events| <= n
  {
    var ids := set a | 0 <= a < |events| :: events[a].worker;
    Tags(events);
    assert forall x :: x in ids ==> 0 <= x < n;
    Below(ids, n);
  }

  lemma {:induction false} Tags(events: seq<WorkerEvent>)
    requires forall a, b :: 0 <= a < b < |events| ==> events[a].worker != events[b].worker
    ensures |set a | 0 <= a < |events| :: events[a].worker| == |events|
    decreases |events|
  {
    if events != [] {
      var last := |events| - 1;
      var init := events[..last];
      Tags(init);
      var ids := set a | 0 <= a < |init| :: init[a].worker;
      assert (set a | 0 <= a < |events| :: events[a].worker) == ids + {events[last].worker};
      assert events[last].worker !in ids;
    }
  }

  lemma {:induction false} Below(ids: set<nat>, n: nat)
    requires forall x :: x in ids ==> x < n
    ensures |ids| <= n
    decreases n
  {
    if n > 0 {
      Below(ids - {n - 1}, n - 1);
    } else {
      assert ids == {};
    }
  }

  // ---------------------------------------------------------------- the reader

  /** Which jobs have gone out to worker `i`, by the reader's phase. */
  ghost predicate SentSoFar(p: Pool, i: nat)
    requires i < |p.log|
  {
    match p.phase
    case Next => if p.current.None? then p.log[i] == [] else p.log[i] != [] && !ClosedLog(p.log[i])
    case Opening(k) => if i < k then p.log[i] != [] && !ClosedLog(p.log[i]) else p.log[i] == []
    case Closing(k) => p.log[i] != [] && (ClosedLog(p.log[i]) <==> i < k)
    case Collecting => ClosedLog(p.log[i])
    case Returned(_) => true
  }

  ghost predicate ReaderInv(p: Pool) {
    && Sized(p)
    && OneEach(p.events, |p.workers|)
    && (!p.phase.Returned? ==>
          && p.jobsOpen && p.joined == 0
          && (p.phase.Opening? || p.phase.Closing? || p.phase.Collecting? ==> p.current.Some?)
          && (p.phase.Closing? || p.phase.Collecting? ==> p.todo != [] && p.todo[0].CopyEnd?)
          && p.acked == |p.acks| < |p.workers|
          && (forall i :: i in p.acks ==> i < |p.workers|)
          && (!p.phase.Collecting? ==> p.acks == {}))
    && (p.current.Some? ==>
          p.current.value.ctx.limits == p.cfg.limits)
  }

  ghost predicate WorkersInv(p: Pool)
    requires Sized(p)
  {
    && (forall i :: 0 <= i < |p.workers| ==> WorkerInv(ViewOf(p, i)))
    && (forall i :: 0 <= i < |p.workers| ==> SentSoFar(p, i))
  }

  ghost predicate Inv(p: Pool) {
    ReaderInv(p) && WorkersInv(p)
  }

  lemma InitInv(p: Pool, cfg: Config, events: seq<Event>, complete: bool, threads: nat)
    requires Init(p, cfg, events, complete, threads)
    ensures Inv(p)
  {
  }

  // ---------------------------------------------------------------- worker steps

  lemma ShapePrefix(log: seq<Job>, ctx: Option<Ctx>, n: nat)
    requires LogShape(log, ctx) && n < |log|
    ensures !ClosedLog(log[..n])
    ensures n > 0 ==> ctx.Some? && !log[n].Open? && log[n].generation == ctx.value.generation
    ensures n == 0 ==> ctx.Some? && log[n] == Open(ctx.value)
  {
    if n > 0 {
      assert log[..n][n - 1] == log[n - 1];
    }
  }

  lemma PerformOpen(i: nat, m: Memory, used: seq<Job>, job: Job, ctx: Option<Ctx>, files: seq<File>)
    requires Remembers(m, used, ctx) && used == [] && ctx.Some? && job == Open(ctx.value)
    ensures Perform(i, m, job, files).Ok? && Perform(i, m, job, files).value.1.None?
    ensures Remembers(Perform(i, m, job, files).value.0, used + [job], ctx)
  {
    LogRowsSnoc(used, job);
    var m' := Perform(i, m, job, files).value.0;
    assert used + [job] == [job];
    assert m'.ctxs == map[ctx.value.generation := ctx.value];
    assert AllOk(Held(m', ctx.value.generation)) == [];
  }

  lemma PerformRows(i: nat, m: Memory, used: seq<Job>, job: Job, ctx: Option<Ctx>, files: seq<File>)
    requires Remembers(m, used, ctx) && used != [] && !ClosedLog(used) && ctx.Some?
    requires job.Rows? && job.generation == ctx.value.generation
    requires Perform(i, m, job, files).Ok?
    ensures Perform(i, m, job, files).value.1.None?
    ensures Remembers(Perform(i, m, job, files).value.0, used + [job], ctx)
  {
    hide AppendRows, CopyText.DecodeRowSpec, Content, Flush, WrittenRows, LogRows, Concat, RowsOf;
    var c := ctx.value;
    var g := c.generation;
    LogRowsSnoc(used, job);
    var block := if g in m.blocks then m.blocks[g] else NEW_BLOCK;
    assert Content(NEW_BLOCK) == [] by { EmptyContent(); }
    AppendRowsContent(block, RowsOf(job.bytes), c);
    DecodeEachAppend(LogRows(used), RowsOf(job.bytes), c.arity, c.limits);
  }

  lemma EmptyContent()
    ensures Content(NEW_BLOCK) == []
  {
  }

  lemma FlushedRows(b: Block)
    ensures Concat(Flush(b).written) == Content(b)
    ensures WrittenRows(Flush(b).written) == |Content(b)|
  {
    FlushContent(b);
    WrittenRowsCount(Flush(b).written);
    assert Concat(Flush(b).written) + [] == Concat(Flush(b).written);
  }

  lemma PerformClose(i: nat, m: Memory, used: seq<Job>, job: Job, ctx: Option<Ctx>, files: seq<File>)
    requires Remembers(m, used, ctx) && used != [] && !ClosedLog(used) && ctx.Some?
    requires job == Close(ctx.value.generation) && FileRows(files) == RowsWritten(m, ctx.value.generation)
    ensures Perform(i, m, job, files).Ok? && Perform(i, m, job, files).value.1.Some?
    ensures Remembers(Perform(i, m, job, files).value.0, used + [job], ctx)
    ensures var e := Perform(i, m, job, files).value.1.value;
      e.Closed? && e.worker == i && IsAck(e, used + [job], ctx)
  {
    hide Content, Flush, CopyText.DecodeRowSpec, RowsOf, LogRows, Concat, FileRows, DecodeEach;
    var g := ctx.value.generation;
    LogRowsSnoc(used, job);
    assert LogRows(used + [job]) == LogRows(used);
    if g in m.blocks {
      FlushedRows(m.blocks[g]);
    }
    assert Perform(i, m, job, files).value.0 == NO_MEMORY;
  }

  /** Doing the next job keeps the memory in step with the jobs done. */
  lemma PerformRemembers(i: nat, m: Memory, log: seq<Job>, n: nat, ctx: Option<Ctx>, files: seq<File>, paths: set<nat>)
    requires LogShape(log, ctx) && n < |log|
    requires Remembers(m, log[..n], ctx) && Perform(i, m, log[n], files).Ok? && Stages(m, log[n], files, paths)
    ensures var (m', e) := Perform(i, m, log[n], files).value;
      && Remembers(m', log[..n + 1], ctx)
      && (e.Some? <==> log[n].Close?)
      && (e.Some? ==> n + 1 == |log| && e.value.Closed? && e.value.worker == i && IsAck(e.value, log, ctx))
  {
    ShapePrefix(log, ctx, n);
    assert log[..n] + [log[n]] == log[..n + 1];
    hide Remembers, IsAck, Perform;
    match log[n]
    case Open(_) =>
      assert n == 0 && log[..n] == [];
      PerformOpen(i, m, log[..n], log[n], ctx, files);
    case Rows(_, _) => PerformRows(i, m, log[..n], log[n], ctx, files);
    case Close(_) =>
      assert log[..n + 1] == log;
      PerformClose(i, m, log[..n], log[n], ctx, files);
  }

  lemma SameJobs(v: View, u: View)
    requires LiveInv(v) && Jobs(u) == Jobs(v)
    requires u == v.(w := v.w.(status := u.w.status), queue := u.queue)
    ensures LiveInv(u)
  {
    hide Jobs, Remembers, IsAck, ClosedLog;
  }

  lemma TakeView(v: View)
    requires WorkerInv(v) && v.w.status.Idle? && v.queue != []
    ensures WorkerInv(v.(w := v.w.(status := Working(v.queue[0])), queue := v.queue[1..]))
  {
    hide LiveInv, LogShape;
    var u := v.(w := v.w.(status := Working(v.queue[0])), queue := v.queue[1..]);
    assert [v.queue[0]] + v.queue[1..] == [] + v.queue;
    SameJobs(v, u);
  }

  /** The job in hand is the next one of the log, and the queue is what follows it. */
  lemma JobInHand(v: View)
    requires WorkerInv(v) && v.w.status.Working?
    ensures var n := |v.log| - 1 - |v.queue|;
      && 0 <= n < |v.log| && v.log[n] == v.w.status.job && v.log[n + 1..] == v.queue
      && Remembers(v.w.memory, v.log[..n], v.ctx) && v.w.recorded.None?
      && v.mail.None? && !v.acked && LogShape(v.log, v.ctx)
  {
    hide Remembers, IsAck, LogShape, ClosedLog;
    var jobs := Jobs(v);
    var n := |v.log| - |jobs|;
    assert jobs == [v.w.status.job] + v.queue;
    assert v.log[n] == v.log[n..][0];
    assert v.log[n + 1..] == v.log[n..][1..];
  }

  lemma WorkReports(v: View, m: Memory, e: WorkerEvent)
    requires LogShape(v.log, v.ctx) && v.mail.None? && !v.acked && v.w.recorded.None? && v.queue == []
    requires Remembers(m, v.log, v.ctx) && v.log != [] && v.log[|v.log| - 1].Close?
    requires e.Closed? && e.worker == v.i && IsAck(e, v.log, v.ctx)
    ensures WorkerInv(v.(w := v.w.(memory := m, status := Reporting(e))))
  {
    hide Remembers, IsAck, LogShape;
    RemembersClosed(m, v.log, v.ctx);
  }

  lemma WorkContinues(v: View, m: Memory, n: nat)
    requires LogShape(v.log, v.ctx) && v.mail.None? && !v.acked && v.w.recorded.None?
    requires n < |v.log| && !v.log[n].Close? && v.log[n + 1..] == v.queue
    requires Remembers(m, v.log[..n + 1], v.ctx)
    ensures WorkerInv(v.(w := v.w.(memory := m, status := Idle)))
  {
    hide Remembers, IsAck, LogShape, ClosedLog;
    var v' := v.(w := v.w.(memory := m, status := Idle));
    assert Jobs(v') == v.queue;
    NotClosedYet(v.log, v.ctx, n);
  }

  lemma WorkView(v: View, files: seq<File>, paths: set<nat>)
    requires WorkerInv(v) && v.w.status.Working? && Perform(v.i, v.w.memory, v.w.status.job, files).Ok?
    requires Stages(v.w.memory, v.w.status.job, files, paths)
    ensures var (m, e) := Perform(v.i, v.w.memory, v.w.status.job, files).value;
      WorkerInv(v.(w := v.w.(memory := m, status := if e.Some? then Reporting(e.value) else Idle)))
  {
    hide *;
    var n := |v.log| - 1 - |v.queue|;
    JobInHand(v);
    PerformRemembers(v.i, v.w.memory, v.log, n, v.ctx, files, paths);
    var (m, e) := Perform(v.i, v.w.memory, v.w.status.job, files).value;
    if e.Some? {
      assert v.log[..n + 1] == v.log;
      WorkReports(v, m, e.value);
    } else {
      WorkContinues(v, m, n);
    }
  }

  lemma RemembersClosed(m: Memory, log: seq<Job>, ctx: Option<Ctx>)
    requires Remembers(m, log, ctx) && log != [] && log[|log| - 1].Close?
    ensures m == NO_MEMORY && ClosedLog(log)
  {
  }

  lemma NotClosedYet(log: seq<Job>, ctx: Option<Ctx>, n: nat)
    requires LogShape(log, ctx) && n < |log| && !log[n].Close?
    ensures n + 1 == |log| ==> !ClosedLog(log)
  {
  }

  lemma FailView(v: View, error: WorkerError)
    requires WorkerInv(v) && v.w.status.Working?
    ensures WorkerInv(v.(w := v.w.(recorded := Some(error), status := Reporting(Failed(v.i, error)))))
  {
    hide Remembers, IsAck, LogShape;
    assert Jobs(v) != [];
  }

  lemma ReportView(v: View)
    requires WorkerInv(v) && v.w.status.Reporting?
    ensures v.mail.None? && v.w.status.event.worker == v.i
    ensures WorkerInv(v.(
      w := v.w.(status := if v.w.status.event.Failed? then Exited else Idle),
      mail := Some(v.w.status.event)))
  {
    hide Remembers, IsAck, LogShape;
    if v.w.status.event.Closed? {
      var v' := v.(w := v.w.(status := Idle), mail := Some(v.w.status.event));
      assert Jobs(v') == [];
      assert v.log[..|v.log|] == v.log && v.log[|v.log|..] == [];
      assert Remembers(NO_MEMORY, v.log, v.ctx) by { ClosedRemembers(v.log, v.ctx); }
    }
  }

  lemma ClosedRemembers(log: seq<Job>, ctx: Option<Ctx>)
    requires ClosedLog(log)
    ensures Remembers(NO_MEMORY, log, ctx)
  {
  }

  lemma ExitView(v: View)
    requires WorkerInv(v) && v.w.status.Idle? && v.returned
    ensures WorkerInv(v.(w := v.w.(status := Exited)))
  {
  }

  // ---------------------------------------------------------------- reader steps, seen by a worker

  lemma SendView(v: View, job: Job)
    requires WorkerInv(v) && !v.w.status.Exited? && !ClosedLog(v.log) && v.ctx.Some?
    requires if v.log == [] then job == Open(v.ctx.value) else !job.Open? && job.generation == v.ctx.value.generation
    ensures WorkerInv(v.(queue := v.queue + [job], log := v.log + [job]))
  {
    hide Remembers, IsAck;
    var v' := v.(queue := v.queue + [job], log := v.log + [job]);
    assert LogShape(v'.log, v.ctx);
    if v.w.status.Idle? || v.w.status.Working? {
      var jobs := Jobs(v);
      var n := |v.log| - |jobs|;
      assert Jobs(v') == jobs + [job];
      assert v'.log[n..] == v.log[n..] + [job];
      assert v'.log[..n] == v.log[..n];
    }
  }

  /** With nothing sent yet, it does not matter which block is about to open. */
  lemma FreshView(v: View, ctx: Option<Ctx>)
    requires WorkerInv(v) && v.log == []
    ensures WorkerInv(v.(ctx := ctx))
  {
    if v.w.status.Idle? || v.w.status.Working? {
      assert Jobs(v) == [];
      assert v.log[..0] == [];
    }
  }

  lemma AckView(v: View)
    requires WorkerInv(v) && v.mail.Some? && v.mail.value.Closed? && !v.returned
    ensures WorkerInv(v.(mail := None, acked := true))
    ensures v.w.status.Idle? && IsAck(v.mail.value, v.log, v.ctx) && !v.acked
  {
  }

  /** An acknowledged worker is idle with nothing in hand: ready for the next block. */
  lemma NextBlockView(v: View)
    requires WorkerInv(v) && v.acked && !v.returned
    ensures WorkerInv(v.(log := [], ctx := None, acked := false))
  {
    hide IsAck;
    assert v.w.status.Idle? || v.w.status.Working?;
    assert Jobs(v) == [];
    assert v.log[..|v.log|] == v.log;
    var v' := v.(log := [], ctx := None, acked := false);
    assert Jobs(v') == [];
  }

  /** The reader has returned: whatever it took off the channel no longer matters. */
  lemma ReturnView(v: View, mail: Option<WorkerEvent>)
    requires WorkerInv(v) && (mail == v.mail || mail == None)
    ensures WorkerInv(v.(returned := true, mail := mail))
  {
    hide Remembers, IsAck, LogShape, ClosedLog;
    var u := v.(returned := true, mail := mail);
    assert Jobs(u) == Jobs(v);
  }
}
