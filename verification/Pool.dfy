/**
 * The reader and its pool of decode workers (src/pipeline.rs: `execute`, `dispatch`,
 * `drive`, `worker`, `worker_loop`), as a step relation.
 *
 * Channels appear as bounded FIFO queues (`Queues` relates them to `Chan`): a send waits for
 * room and fails once the receiving end is gone, a receive waits for an item. The scheduler
 * is adversarial; a worker may fail at any job (storage, a value its column cannot hold, a
 * panic), and the reader may give up at any point (a read or storage failure, an interrupt).
 */
module Pool {
  import opened Bytes
  import opened SqlText
  import opened Scan
  import opened Worker
  import opened Delta
  import CopyText

  const QUEUE_DEPTH: nat := 3

  datatype Config = Config(
    tables: Option<set<seq<byte>>>,
    excludedSchemas: set<seq<byte>>,
    limits: CopyText.Limits,
    maxRows: nat,
    maxBytes: nat)

  /** A table is loaded if it is allowed and its schema is not excluded. */
  predicate Wanted(cfg: Config, table: TableName) {
    && (cfg.tables.None? || Qualified(table) in cfg.tables.value)
    && !(table.schema.Some? && table.schema.value in cfg.excludedSchemas)
  }

  datatype WorkerError = Decoding(error: CopyText.CopyError) | Trouble(code: nat)

  datatype WorkerEvent =
    | Closed(worker: nat, generation: nat, files: seq<File>, count: nat)
    | Failed(worker: nat, error: WorkerError)

  datatype Status =
    | Idle
    | Working(job: Job)
    | Reporting(event: WorkerEvent)
    | Exited

  /** What a worker remembers between jobs, and the error it recorded, if any. */
  datatype Memory = Memory(ctxs: map<nat, Ctx>, blocks: map<nat, Block>)

  const NO_MEMORY := Memory(map[], map[])

  datatype WorkerState = WorkerState(status: Status, memory: Memory, recorded: Option<WorkerError>)

  datatype ReaderError =
    | FromWorker(worker: nat, error: WorkerError)
    | PoolStopped
    | Internal
    | Refused
    | GaveUp

  datatype Phase =
    | Next
    | Opening(k: nat)
    | Closing(k: nat)
    | Collecting
    | Returned(outcome: Option<ReaderError>)

  datatype OpenBlock = OpenBlock(ctx: Ctx, table: TableName)

  datatype BlockResult = BlockResult(table: TableName, files: seq<File>, count: nat)

  datatype Pool = Pool(
    cfg: Config,
    done: seq<Event>,
    todo: seq<Event>,
    phase: Phase,
    current: Option<OpenBlock>,
    skipping: bool,
    generation: nat,
    roundRobin: nat,
    queues: seq<seq<Job>>,
    workers: seq<WorkerState>,
    events: seq<WorkerEvent>,
    jobsOpen: bool,
    joined: nat,
    // Jobs sent to each worker for the block under way, and what came back for it.
    log: seq<seq<Job>>,
    acks: set<nat>,
    acked: nat,
    files: seq<File>,
    count: nat,
    results: seq<BlockResult>,
    // Whether `finish` will accept the scan, the files each worker last staged, and every
    // path that was ever written to.
    complete: bool,
    staged: seq<seq<File>>,
    paths: set<nat>)

  function EventCapacity(p: Pool): nat {
    |p.workers| * 2 + 4
  }

  ghost predicate Init(p: Pool, cfg: Config, events: seq<Event>, complete: bool, threads: nat) {
    && threads >= 1
    && p == Pool(cfg, [], events, Next, None, false, 0, 0,
                 seq(threads, _ => []), seq(threads, _ => WorkerState(Idle, NO_MEMORY, None)), [],
                 true, 0, seq(threads, _ => []), {}, 0, [], 0, [],
                 complete, seq(threads, _ => []), p.paths)
  }

  datatype Step =
    | Skip
    | StartBlock
    | SendOpen
    | SendRows
    | BeginClose
    | SendClose
    | DispatchFails
    | Collect
    | ChannelGone
    | Misplaced
    | Finish
    | GiveUp
    | DropJobs
    | Join
    | Take(i: nat)
    | NoMoreJobs(i: nat)
    | Work(i: nat, files: seq<File>)
    | Fail(i: nat, code: nat)
    | Report(i: nat)

  // ---------------------------------------------------------------- the worker

  /** The rows a closing job hands to the writer, batch after batch. */
  function RowsWritten(m: Memory, g: nat): (rows: seq<Row>) {
    if g in m.blocks then Concat(Flush(m.blocks[g]).written) else []
  }

  /**
   * What is assumed of the writer: the files it stages, under new paths, hold the rows it was
   * given, one way or another. Only a closing job stages any.
   */
  ghost predicate Stages(m: Memory, job: Job, files: seq<File>, paths: set<nat>) {
    if job.Close? then
      FileRows(files) == RowsWritten(m, job.generation) && Separate(files) && forall f :: f in files ==> f.path !in paths
    else files == []
  }

  /** A job done without failing: what the worker remembers next, and what it reports. */
  function Perform(i: nat, m: Memory, job: Job, files: seq<File>): (r: Result<(Memory, Option<WorkerEvent>), WorkerError>) {
    match job
    case Open(ctx) => Ok((m.(ctxs := m.ctxs[ctx.generation := ctx]), None))
    case Rows(g, bytes) =>
      if g !in m.ctxs then Err(Trouble(0))
      else
        var block := if g in m.blocks then m.blocks[g] else NEW_BLOCK;
        (match AppendRows(block, RowsOf(bytes), m.ctxs[g])
         case Err(e) => Err(Decoding(e))
         case Ok(b) => Ok((m.(blocks := m.blocks[g := b]), None)))
    case Close(g) =>
      var written := if g in m.blocks then Flush(m.blocks[g]).written else [];
      Ok((Memory(m.ctxs - {g}, m.blocks - {g}), Some(Closed(i, g, files, WrittenRows(written)))))
  }

  // ---------------------------------------------------------------- steps

  /** The worker the next payload goes to. */
  function Target(p: Pool): nat
    requires |p.workers| > 0
  {
    p.roundRobin % |p.workers|
  }

  /** The worker the reader is about to send a job to, if it is. */
  function Addressee(p: Pool): (r: Option<nat>)
    requires |p.workers| > 0
  {
    match p.phase
    case Opening(k) => Some(k)
    case Closing(k) => Some(k)
    case Next =>
      if p.todo != [] && p.todo[0].CopyRows? && !p.skipping && p.current.Some? then Some(Target(p)) else None
    case _ => None
  }

  /** The reader is waiting on the event channel. */
  predicate Listening(p: Pool)
    requires |p.workers| > 0 && (Addressee(p).Some? ==> Addressee(p).value < |p.workers|)
  {
    p.phase.Collecting? || (Addressee(p).Some? && p.workers[Addressee(p).value].status.Exited?)
  }

  predicate HasRoom(p: Pool, i: nat)
    requires i < |p.workers| == |p.queues|
  {
    !p.workers[i].status.Exited? && |p.queues[i]| < QUEUE_DEPTH
  }

  /** The reader's next event would break the block structure. */
  predicate IsMisplaced(p: Pool) {
    && p.phase.Next? && p.todo != []
    && match p.todo[0]
       case CopyStart(_, _) => p.current.Some?
       case CopyRows(_) => !p.skipping && p.current.None?
       case CopyEnd(t) => !p.skipping && (p.current.None? || p.current.value.table != t)
       case _ => false
  }

  predicate Sized(p: Pool) {
    && |p.workers| == |p.queues| == |p.log| == |p.staged| >= 1
    && (p.phase.Opening? ==> p.phase.k < |p.workers|)
    && (p.phase.Closing? ==> p.phase.k < |p.workers|)
    && p.joined <= |p.workers|
  }

  ghost predicate Enabled(p: Pool, step: Step)
    requires Sized(p)
  {
    match step
    case Skip =>
      p.phase.Next? && p.todo != [] &&
      (match p.todo[0]
       case DumpVersion(_, _) => true
       case Table(_) => true
       case CopyStart(t, _) => p.current.None? && !Wanted(p.cfg, t)
       case CopyRows(_) => p.skipping
       case CopyEnd(_) => p.skipping)
    case StartBlock =>
      p.phase.Next? && p.todo != [] && p.todo[0].CopyStart? && p.current.None? && Wanted(p.cfg, p.todo[0].table)
    case SendOpen => p.phase.Opening? && p.current.Some? && HasRoom(p, p.phase.k)
    case SendRows =>
      p.phase.Next? && Addressee(p).Some? && HasRoom(p, Target(p))
    case BeginClose =>
      p.phase.Next? && p.todo != [] && p.todo[0].CopyEnd? && !p.skipping && p.current.Some?
      && p.current.value.table == p.todo[0].closed
    case SendClose => p.phase.Closing? && p.current.Some? && HasRoom(p, p.phase.k)
    case DispatchFails =>
      Addressee(p).Some? && p.workers[Addressee(p).value].status.Exited? && p.events != []
    case Collect => p.phase.Collecting? && p.current.Some? && p.events != [] && p.todo != []
    case ChannelGone => Listening(p) && p.events == [] && forall i :: 0 <= i < |p.workers| ==> p.workers[i].status.Exited?
    case Misplaced => IsMisplaced(p)
    case Finish => p.phase.Next? && p.todo == []
    case GiveUp => !p.phase.Returned?
    case DropJobs => p.phase.Returned? && p.jobsOpen
    case Join => p.phase.Returned? && !p.jobsOpen && p.joined < |p.workers| && p.workers[p.joined].status.Exited?
    case Take(i) => i < |p.workers| && p.workers[i].status.Idle? && p.queues[i] != []
    case NoMoreJobs(i) => i < |p.workers| && p.workers[i].status.Idle? && p.queues[i] == [] && !p.jobsOpen
    case Work(i, files) =>
      i < |p.workers| && p.workers[i].status.Working?
      && Perform(i, p.workers[i].memory, p.workers[i].status.job, files).Ok?
      && Stages(p.workers[i].memory, p.workers[i].status.job, files, p.paths)
    case Fail(i, _) => i < |p.workers| && p.workers[i].status.Working?
    case Report(i) => i < |p.workers| && p.workers[i].status.Reporting? && |p.events| < EventCapacity(p)
  }

  function Advance(p: Pool): Pool
    requires p.todo != []
  {
    p.(done := p.done + [p.todo[0]], todo := p.todo[1..])
  }

  /** One more job in a worker's queue. */
  function Sent(p: Pool, i: nat, job: Job): Pool
    requires i < |p.queues| == |p.log|
  {
    p.(queues := p.queues[i := p.queues[i] + [job]], log := p.log[i := p.log[i] + [job]])
  }

  function WithWorker(p: Pool, i: nat, w: WorkerState): Pool
    requires i < |p.workers|
  {
    p.(workers := p.workers[i := w])
  }

  /** The error a worker records: the decoding error, or whatever else went wrong. */
  function Cause(i: nat, w: WorkerState, code: nat): WorkerError
    requires w.status.Working?
  {
    match Perform(i, w.memory, w.status.job, [])
    case Err(e) => e
    case Ok(_) => Trouble(code)
  }

  /** Every worker has acknowledged: the block's books are closed. */
  function CloseBooks(p: Pool): (r: Pool)
    requires p.current.Some? && p.todo != []
  {
    Advance(p).(
      results := p.results + [BlockResult(p.current.value.table, p.files, p.count)],
      phase := Next, current := None,
      log := seq(|p.log|, _ => []), acks := {}, acked := 0, files := [], count := 0,
      staged := seq(|p.staged|, _ => []))
  }

  /** An acknowledgement taken off the event channel. */
  function Acknowledge(p: Pool, c: WorkerEvent): (r: Pool)
    requires c.Closed? && p.events != []
  {
    p.(events := p.events[1..], acks := p.acks + {c.worker}, acked := p.acked + 1,
       files := p.files + c.files, count := p.count + c.count)
  }

  function Return(p: Pool, outcome: Option<ReaderError>): Pool {
    p.(phase := Returned(outcome))
  }

  ghost function ApplyReader(p: Pool, step: Step): (r: Pool)
    requires Sized(p) && Enabled(p, step)
    requires !IsWorkerStep(step)
  {
    match step
    case Skip =>
      Advance(p).(skipping := p.todo[0].CopyStart? || (p.skipping && !p.todo[0].CopyEnd?))
    case StartBlock =>
      var g := p.generation + 1;
      var ctx := Ctx(g, |p.todo[0].columns|, p.cfg.limits, p.cfg.maxRows, p.cfg.maxBytes);
      Advance(p).(generation := g, current := Some(OpenBlock(ctx, p.todo[0].table)), phase := Opening(0), roundRobin := 0)
    case SendOpen =>
      var k := p.phase.k;
      Sent(p, k, Open(p.current.value.ctx)).(phase := if k + 1 == |p.workers| then Next else Opening(k + 1))
    case SendRows =>
      Advance(Sent(p, Target(p), Rows(p.current.value.ctx.generation, p.todo[0].payload)))
        .(roundRobin := p.roundRobin + 1)
    case BeginClose => p.(phase := Closing(0))
    case SendClose =>
      var k := p.phase.k;
      Sent(p, k, Close(p.current.value.ctx.generation))
        .(phase := if k + 1 == |p.workers| then Collecting else Closing(k + 1))
    case DispatchFails =>
      Return(p.(events := p.events[1..]),
             Some(if p.events[0].Failed? then FromWorker(p.events[0].worker, p.events[0].error) else PoolStopped))
    case Collect =>
      if p.events[0].Failed? then
        Return(p.(events := p.events[1..]), Some(FromWorker(p.events[0].worker, p.events[0].error)))
      else
        var q := Acknowledge(p, p.events[0]);
        if q.acked == |p.workers| then CloseBooks(q) else q
    case ChannelGone => Return(p, Some(PoolStopped))
    case Misplaced => Return(p, Some(Internal))
    case Finish => Return(p, if p.complete then None else Some(Refused))
    case GiveUp => Return(p, Some(GaveUp))
    case DropJobs => p.(jobsOpen := false)
    case Join => p.(joined := p.joined + 1)
  }

  predicate IsWorkerStep(step: Step) {
    step.Take? || step.NoMoreJobs? || step.Work? || step.Fail? || step.Report?
  }

  ghost function ApplyWorker(p: Pool, step: Step): (r: Pool)
    requires Sized(p) && Enabled(p, step)
    requires IsWorkerStep(step)
  {
    var w := p.workers[step.i];
    match step
    case Take(i) =>
      WithWorker(p, i, w.(status := Working(p.queues[i][0]))).(queues := p.queues[i := p.queues[i][1..]])
    case NoMoreJobs(i) => WithWorker(p, i, w.(status := Exited))
    case Work(i, files) =>
      var (m, event) := Perform(i, w.memory, w.status.job, files).value;
      WithWorker(p, i, w.(memory := m, status := if event.Some? then Reporting(event.value) else Idle))
        .(staged := if event.Some? then p.staged[i := files] else p.staged, paths := p.paths + PathsOf(files))
    case Fail(i, code) =>
      var e := Cause(i, w, code);
      WithWorker(p, i, w.(recorded := Some(e), status := Reporting(Failed(i, e))))
    case Report(i) =>
      WithWorker(p, i, w.(status := if w.status.event.Failed? then Exited else Idle))
        .(events := p.events + [w.status.event])
  }

  ghost function Apply(p: Pool, step: Step): (r: Pool)
    requires Sized(p) && Enabled(p, step)
  {
    if IsWorkerStep(step) then ApplyWorker(p, step) else ApplyReader(p, step)
  }

  /** Collecting, by itself. */
  lemma Collects(p: Pool)
    requires Sized(p) && Enabled(p, Collect)
    ensures p.phase.Collecting? && p.current.Some? && p.events != [] && p.todo != []
    ensures p.events[0].Failed? ==>
      Apply(p, Collect) == Return(p.(events := p.events[1..]), Some(FromWorker(p.events[0].worker, p.events[0].error)))
    ensures p.events[0].Closed? ==>
      var q := Acknowledge(p, p.events[0]); Apply(p, Collect) == if q.acked == |p.workers| then CloseBooks(q) else q
  {
    hide Perform, Stages, Wanted, Listening, HasRoom, Addressee;
  }

  /** No worker makes the reader return. */
  lemma WorkersLeavePhase(p: Pool, step: Step)
    requires Sized(p) && Enabled(p, step) && IsWorkerStep(step)
    ensures Apply(p, step).phase == p.phase
  {
    hide Perform, Stages, Wanted, Listening, HasRoom, Addressee, Cause, PathsOf;
  }
}
