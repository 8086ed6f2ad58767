/** The pool never deadlocks, always winds down, and reports a failure's own cause. */
module PoolLive {
  import opened Bytes
  import opened Worker
  import opened Pool
  import opened PoolInv
  import opened Delta
  import CopyText

  // ---------------------------------------------------------------- the event channel

  /** A worker with something to report always finds room. */
  lemma ReportNeverBlocks(p: Pool)
    requires Inv(p)
    ensures |p.events| <= |p.workers| < EventCapacity(p)
  {
    EventsFit(p.events, |p.workers|);
  }

  /** While the reader is still driving, a worker that has exited has its error waiting. */
  lemma ExitLeavesError(p: Pool, i: nat)
    requires Inv(p) && !p.phase.Returned? && i < |p.workers| && p.workers[i].status.Exited?
    ensures EventOf(p.events, i).Some? && EventOf(p.events, i).value.Failed?
    ensures p.workers[i].recorded == Some(EventOf(p.events, i).value.error)
    ensures p.events != []
  {
    hide SentSoFar, OneEach, LiveInv;
    assert WorkerInv(ViewOf(p, i));
    EventOfNone(p.events, i);
  }

  /** So the event channel is never found abandoned. */
  lemma ChannelNeverGone(p: Pool)
    requires Inv(p)
    ensures !Enabled(p, ChannelGone)
  {
    hide WorkersInv;
    if Enabled(p, ChannelGone) {
      assert p.workers[0].status.Exited?;
      ExitLeavesError(p, 0);
    }
  }

  // ---------------------------------------------------------------- causes

  /** Who an undelivered event is from, and what it can be. */
  lemma FrontEvent(p: Pool)
    requires Inv(p) && !p.phase.Returned? && p.events != []
    ensures var e := p.events[0];
      && e.worker < |p.workers|
      && (e.Failed? ==> p.workers[e.worker].recorded == Some(e.error))
      && (e.Closed? ==> ClosedLog(p.log[e.worker]))
  {
    hide SentSoFar, Remembers, LogShape, Jobs;
    var e := p.events[0];
    assert EventOf(p.events, e.worker) == Some(e);
    assert WorkerInv(ViewOf(p, e.worker));
  }

  /**
   * A failed dispatch of an opening or of rows reports a worker's own recorded error; only
   * while closings are being sent can another worker's acknowledgement be in front.
   */
  lemma DispatchCause(p: Pool)
    requires Inv(p) && Enabled(p, DispatchFails)
    ensures var outcome := Apply(p, DispatchFails).phase.outcome;
      && (!p.phase.Closing? ==>
            outcome.Some? && outcome.value.FromWorker? && p.events[0].Failed?)
      && (outcome.Some? && outcome.value.FromWorker? ==>
            outcome.value.worker < |p.workers| && p.workers[outcome.value.worker].recorded == Some(outcome.value.error))
      && (outcome == Some(PoolStopped) <==> p.events[0].Closed?)
  {
    hide WorkerInv, OneEach;
    FrontEvent(p);
    var e := p.events[0];
    assert SentSoFar(p, e.worker);
  }

  /** Collecting acknowledgements, the reader fails only with a worker's recorded error. */
  lemma CollectCause(p: Pool)
    requires Inv(p) && Enabled(p, Collect) && Apply(p, Collect).phase.Returned?
    ensures var outcome := Apply(p, Collect).phase.outcome;
      && outcome.Some? && outcome.value.FromWorker?
      && outcome.value.worker < |p.workers|
      && p.workers[outcome.value.worker].recorded == Some(outcome.value.error)
  {
    hide WorkersInv, OneEach;
    FrontEvent(p);
  }

  /**
   * A worker that fails on rows records why the first bad one of them does not decode, and
   * that is what it reports.
   */
  lemma FailRecords(p: Pool, i: nat, code: nat, k: nat, e: CopyText.CopyError)
    requires Sized(p) && Enabled(p, Fail(i, code))
    requires var job, m := p.workers[i].status.job, p.workers[i].memory;
      && job.Rows? && job.generation in m.ctxs
      && FirstBad(RowsOf(job.bytes), k, m.ctxs[job.generation].arity, m.ctxs[job.generation].limits, e)
    ensures var w := Apply(p, Fail(i, code)).workers[i];
      w.recorded == Some(Decoding(e)) && w.status == Reporting(Failed(i, Decoding(e)))
  {
    var job, m := p.workers[i].status.job, p.workers[i].memory;
    var block := if job.generation in m.blocks then m.blocks[job.generation] else NEW_BLOCK;
    FirstBadFails(block, RowsOf(job.bytes), m.ctxs[job.generation], k, e);
    hide AppendRows, CopyText.DecodeRowSpec, FirstBad;
  }

  // ---------------------------------------------------------------- progress

  /** The reader has returned, the pool is shut down, and every worker has been joined. */
  predicate Final(p: Pool) {
    p.phase.Returned? && !p.jobsOpen && p.joined == |p.workers|
  }

  /** A step taken for its own sake: nobody gives up, and no job fails that could be done. */
  predicate Genuine(p: Pool, step: Step)
    requires Sized(p) && Enabled(p, step)
  {
    && !step.GiveUp?
    && (step.Fail? ==> Perform(step.i, p.workers[step.i].memory, p.workers[step.i].status.job, []).Err?)
  }

  /** Whether a job can be done does not depend on the files it stages. */
  lemma SameOutcome(i: nat, m: Memory, job: Job, files: seq<File>)
    ensures Perform(i, m, job, files).Ok? <==> Perform(i, m, job, []).Ok?
  {
    match job
    case Open(_) =>
    case Rows(g, bytes) =>
      if g in m.ctxs {
        var block := if g in m.blocks then m.blocks[g] else NEW_BLOCK;
        match AppendRows(block, RowsOf(bytes), m.ctxs[g])
        case Err(_) =>
        case Ok(_) =>
      }
    case Close(_) =>
  }

  lemma {:induction false} PathAbove(paths: set<nat>) returns (n: nat)
    ensures forall p :: p in paths ==> p < n
  {
    if p :| p in paths {
      var rest := paths - {p};
      var above := PathAbove(rest);
      n := if above <= p then p + 1 else above;
      assert forall q :: q in paths ==> q == p || q in rest;
    } else {
      n := 0;
    }
  }

  /** The writer can always stage a job's rows, under a path never used before. */
  lemma SomeFiles(m: Memory, job: Job, paths: set<nat>) returns (files: seq<File>)
    ensures Stages(m, job, files, paths)
  {
    if job.Close? {
      var path := PathAbove(paths);
      files := [File(path, RowsWritten(m, job.generation))];
      assert files[1..] == [];
      assert FileRows(files) == files[0].rows + [];
    } else {
      files := [];
    }
  }

  /** A worker with something to do can do it. */
  lemma BusyWorkerMoves(p: Pool, i: nat) returns (step: Step)
    requires Inv(p) && i < |p.workers|
    requires p.workers[i].status.Working? || p.workers[i].status.Reporting? || (p.workers[i].status.Idle? && p.queues[i] != [])
    ensures Enabled(p, step) && Genuine(p, step)
  {
    ReportNeverBlocks(p);
    hide WorkersInv, OneEach, Perform;
    match p.workers[i].status
    case Idle => step := Take(i);
    case Working(job) =>
      var files := SomeFiles(p.workers[i].memory, job, p.paths);
      SameOutcome(i, p.workers[i].memory, job, files);
      step := if Perform(i, p.workers[i].memory, job, []).Ok? then Work(i, files) else Fail(i, 0);
    case Reporting(_) => step := Report(i);
  }

  /** Nothing in hand, nothing queued. */
  predicate AtRest(p: Pool, i: nat)
    requires i < |p.workers| == |p.queues|
  {
    p.workers[i].status.Exited? || (p.workers[i].status.Idle? && p.queues[i] == [])
  }

  /** With every worker at rest, a reader about to send can send, or finds out why not. */
  lemma ReaderSends(p: Pool) returns (step: Step)
    requires Inv(p) && !p.phase.Returned? && Addressee(p).Some? && p.current.Some?
    requires forall i :: 0 <= i < |p.workers| ==> AtRest(p, i)
    ensures Enabled(p, step) && Genuine(p, step)
  {
    var k := Addressee(p).value;
    assert AtRest(p, k);
    if p.workers[k].status.Exited? {
      ExitLeavesError(p, k);
      step := DispatchFails;
    } else {
      step := if p.phase.Opening? then SendOpen else if p.phase.Closing? then SendClose else SendRows;
    }
  }

  /** With every worker at rest, an acknowledgement still missing is waiting. */
  lemma ReaderCollects(p: Pool)
    requires Inv(p) && p.phase.Collecting?
    requires forall i :: 0 <= i < |p.workers| ==> AtRest(p, i)
    ensures p.events != []
  {
    if forall i :: 0 <= i < |p.workers| ==> i in p.acks {
      FewerAcks(p.acks, |p.workers|);
    } else {
      var i: nat :| i < |p.workers| && i !in p.acks;
      assert AtRest(p, i) && WorkerInv(ViewOf(p, i)) && SentSoFar(p, i);
      EventOfNone(p.events, i);
      if p.workers[i].status.Idle? {
        assert Jobs(ViewOf(p, i)) == [];
      }
    }
  }

  lemma {:induction false} FewerAcks(acks: set<nat>, n: nat)
    requires forall i :: 0 <= i < n ==> i in acks
    ensures |acks| >= n
    decreases n
  {
    if n > 0 {
      FewerAcks(acks - {n - 1}, n - 1);
    }
  }

  lemma NextEventMoves(p: Pool) returns (step: Step)
    requires Inv(p) && p.phase.Next?
    requires forall i :: 0 <= i < |p.workers| ==> AtRest(p, i)
    ensures Enabled(p, step) && Genuine(p, step)
  {
    hide WorkersInv, OneEach;
    if p.todo == [] {
      return Finish;
    }
    if IsMisplaced(p) {
      return Misplaced;
    }
    match p.todo[0]
    case DumpVersion(_, _) => step := Skip;
    case Table(_) => step := Skip;
    case CopyStart(t, _) => step := if Wanted(p.cfg, t) then StartBlock else Skip;
    case CopyRows(_) =>
      if p.skipping {
        step := Skip;
      } else {
        step := ReaderSends(p);
      }
    case CopyEnd(_) => step := if p.skipping then Skip else BeginClose;
  }

  lemma ShutdownMoves(p: Pool) returns (step: Step)
    requires Inv(p) && p.phase.Returned? && !Final(p)
    requires forall i :: 0 <= i < |p.workers| ==> AtRest(p, i)
    ensures Enabled(p, step) && Genuine(p, step)
  {
    hide WorkersInv, OneEach;
    if p.jobsOpen {
      return DropJobs;
    }
    assert AtRest(p, p.joined);
    step := if p.workers[p.joined].status.Exited? then Join else NoMoreJobs(p.joined);
  }

  /**
   * No deadlock: in every state that keeps the invariant and is not final, some step is
   * possible without anybody giving up or any job failing that could be done.
   */
  lemma Progress(p: Pool) returns (step: Step)
    requires Inv(p) && !Final(p)
    ensures Enabled(p, step) && Genuine(p, step)
  {
    hide WorkersInv, OneEach, Perform;
    if i: nat :| i < |p.workers| && !AtRest(p, i) {
      step := BusyWorkerMoves(p, i);
    } else {
      assert forall i: nat :: i < |p.workers| ==> AtRest(p, i);
      match p.phase
      case Next => step := NextEventMoves(p);
      case Opening(_) => step := ReaderSends(p);
      case Closing(_) => step := ReaderSends(p);
      case Collecting =>
        ReaderCollects(p);
        step := Collect;
      case Returned(_) => step := ShutdownMoves(p);
    }
  }

  // ---------------------------------------------------------------- termination

  function StatusCost(s: Status): nat {
    match s
    case Idle => 1
    case Working(_) => 4
    case Reporting(_) => 3
    case Exited => 0
  }

  /** What is left to do for the first `n` workers. */
  function WorkersCost(workers: seq<WorkerState>, queues: seq<seq<Job>>, n: nat): (c: nat)
    requires n <= |workers| == |queues|
  {
    if n == 0 then 0
    else WorkersCost(workers, queues, n - 1) + StatusCost(workers[n - 1].status) + 4 * |queues[n - 1]|
  }

  /** Enough for everything one event can set off. */
  function EventCost(p: Pool): nat {
    6 * |p.workers| + 4
  }

  function Backlog(events: nat, each: nat): nat {
    if events == 0 then 0 else Backlog(events - 1, each) + each
  }

  function ReaderCost(p: Pool): nat
    requires Sized(p)
  {
    var each := EventCost(p);
    var n := |p.workers|;
    var later := if p.todo == [] then 0 else Backlog(|p.todo| - 1, each);
    match p.phase
    case Next => Backlog(|p.todo|, each) + 1
    case Opening(k) => Backlog(|p.todo|, each) + 5 * (n - k) + 2
    case Closing(k) => later + 5 * (n - k) + n + 3
    case Collecting => later + (if p.acked <= n then n - p.acked else 0) + 2
    case Returned(_) => 0
  }

  function Cost(p: Pool): (c: nat)
    requires Sized(p)
  {
    ReaderCost(p) + WorkersCost(p.workers, p.queues, |p.workers|) + |p.events|
    + (if p.jobsOpen then 1 else 0) + (|p.workers| - p.joined)
  }

  lemma {:induction false} WorkersCostUpdate(workers: seq<WorkerState>, queues: seq<seq<Job>>, i: nat, w: WorkerState, queue: seq<Job>, n: nat)
    requires i < |workers| == |queues| && n <= |workers|
    ensures WorkersCost(workers[i := w], queues[i := queue], n) ==
      WorkersCost(workers, queues, n) + (if i < n
        then StatusCost(w.status) + 4 * |queue| - StatusCost(workers[i].status) - 4 * |queues[i]| else 0)
    decreases n
  {
    if n > 0 {
      WorkersCostUpdate(workers, queues, i, w, queue, n - 1);
    }
  }

  lemma WorkerStepCost(p: Pool, step: Step)
    requires Sized(p) && Enabled(p, step) && IsWorkerStep(step)
    ensures Sized(Apply(p, step)) && Cost(Apply(p, step)) < Cost(p)
  {
    hide Perform, ReaderCost, WorkersCost, Cause;
    var q := Apply(p, step);
    var i := step.i;
    assert q.queues == p.queues[i := q.queues[i]];
    WorkersCostUpdate(p.workers, p.queues, i, q.workers[i], q.queues[i], |p.workers|);
    SameReaderCost(p, q);
  }

  lemma SameReaderCost(p: Pool, q: Pool)
    requires Sized(p) && Sized(q) && q.phase == p.phase && q.todo == p.todo && q.acked == p.acked && |q.workers| == |p.workers|
    ensures ReaderCost(q) == ReaderCost(p)
  {
  }

  lemma SendCost(p: Pool, step: Step)
    requires Sized(p) && Enabled(p, step) && (step.SendOpen? || step.SendRows? || step.SendClose?)
    requires p.phase.Closing? ==> p.todo != []
    requires p.acked == 0
    ensures Sized(Apply(p, step)) && Cost(Apply(p, step)) < Cost(p)
  {
    hide WorkersCost;
    var q := Apply(p, step);
    var k := Addressee(p).value;
    assert q.workers == p.workers[k := p.workers[k]];
    WorkersCostUpdate(p.workers, p.queues, k, p.workers[k], q.queues[k], |p.workers|);
  }

  /** The reader moves on without sending: only its own cost changes. */
  lemma ReaderMoveCost(p: Pool, step: Step)
    requires ReaderInv(p) && Enabled(p, step) && (step.Skip? || step.StartBlock? || step.BeginClose?)
    ensures Sized(Apply(p, step)) && Cost(Apply(p, step)) < Cost(p)
  {
    hide WorkersCost, OneEach, Listening, IsMisplaced, Wanted;
    assert p.phase.Next? && p.todo != [];
  }

  lemma CollectKeeps(p: Pool)
    requires ReaderInv(p) && Enabled(p, Collect)
    ensures var q := Apply(p, Collect);
      && Sized(q) && q.workers == p.workers && q.queues == p.queues && |q.events| == |p.events| - 1
      && q.jobsOpen == p.jobsOpen && q.joined == p.joined
  {
    hide OneEach, Listening, IsMisplaced, Wanted;
  }

  lemma CollectReaderCost(p: Pool)
    requires ReaderInv(p) && Enabled(p, Collect) && Sized(Apply(p, Collect))
    ensures ReaderCost(Apply(p, Collect)) <= ReaderCost(p)
  {
    Collects(p);
    hide OneEach, Apply, Enabled;
  }

  lemma CollectCost(p: Pool)
    requires ReaderInv(p) && Enabled(p, Collect)
    ensures Sized(Apply(p, Collect)) && Cost(Apply(p, Collect)) < Cost(p)
  {
    hide WorkersCost, ReaderCost, Apply, Enabled, ReaderInv;
    CollectKeeps(p);
    CollectReaderCost(p);
  }

  /** The reader returns, or the pool winds down. */
  lemma WindDownCost(p: Pool, step: Step)
    requires ReaderInv(p) && Enabled(p, step)
    requires step.DispatchFails? || step.ChannelGone? || step.Misplaced? || step.Finish? || step.GiveUp? || step.DropJobs? || step.Join?
    ensures Sized(Apply(p, step)) && Cost(Apply(p, step)) < Cost(p)
  {
    hide WorkersCost, OneEach, Backlog, Perform, Stages, Wanted;
  }

  /** Every step brings the run closer to its end, so every run ends. */
  lemma StepCost(p: Pool, step: Step)
    requires Inv(p) && Enabled(p, step)
    ensures Sized(Apply(p, step)) && Cost(Apply(p, step)) < Cost(p)
  {
    hide WorkersInv, OneEach, Perform;
    if IsWorkerStep(step) {
      WorkerStepCost(p, step);
    } else if step.SendOpen? || step.SendRows? || step.SendClose? {
      SendCost(p, step);
    } else if step.Skip? || step.StartBlock? || step.BeginClose? {
      ReaderMoveCost(p, step);
    } else if step.Collect? {
      CollectCost(p);
    } else {
      WindDownCost(p, step);
    }
  }
}
