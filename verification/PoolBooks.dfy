/** Nothing is lost, doubled or mixed up between the reader and its workers. */
module PoolBooks {
  import opened Bytes
  import opened Worker
  import opened Pool
  import opened PoolInv
  import opened Ledger
  import opened Delta
  import PoolSteps
  import Scan
  import CopyText

  /** The rows sent to those of the first `n` workers that are in `who`, decoded and pooled. */
  function Dealt(log: seq<seq<Job>>, who: set<nat>, arity: nat, limits: CopyText.Limits, n: nat): (m: multiset<Decoded>)
    requires n <= |log|
  {
    if n == 0 then multiset{}
    else
      Dealt(log, who, arity, limits, n - 1)
      + (if n - 1 in who then Bag(LogRows(log[n - 1]), arity, limits) else multiset{})
  }

  lemma {:induction false} DealtTo(log: seq<seq<Job>>, who: set<nat>, arity: nat, limits: CopyText.Limits, k: nat, job: Job, n: nat)
    requires k < |log| && n <= |log|
    ensures Dealt(log[k := log[k] + [job]], who, arity, limits, n) ==
      Dealt(log, who, arity, limits, n)
      + (if k < n && k in who && job.Rows? then Bag(RowsOf(job.bytes), arity, limits) else multiset{})
    decreases n
  {
    hide LogRows, Bag;
    if n > 0 {
      DealtTo(log, who, arity, limits, k, job, n - 1);
      if k == n - 1 && k in who {
        LogRowsSnoc(log[k], job);
        if job.Rows? {
          BagAppend(LogRows(log[k]), RowsOf(job.bytes), arity, limits);
        } else {
          assert LogRows(log[k]) + [] == LogRows(log[k]);
        }
      }
    }
  }

  lemma {:induction false} DealtJoins(log: seq<seq<Job>>, who: set<nat>, arity: nat, limits: CopyText.Limits, k: nat, n: nat)
    requires n <= |log| && k < |log| && k !in who
    ensures Dealt(log, who + {k}, arity, limits, n) ==
      Dealt(log, who, arity, limits, n) + (if k < n then Bag(LogRows(log[k]), arity, limits) else multiset{})
    decreases n
  {
    hide LogRows, Bag;
    if n > 0 {
      DealtJoins(log, who, arity, limits, k, n - 1);
      assert n - 1 in who + {k} <==> n - 1 in who || n - 1 == k;
    }
  }

  lemma {:induction false} DealtNobody(log: seq<seq<Job>>, arity: nat, limits: CopyText.Limits, n: nat)
    requires n <= |log|
    ensures Dealt(log, {}, arity, limits, n) == multiset{}
    decreases n
  {
    if n > 0 {
      DealtNobody(log, arity, limits, n - 1);
    }
  }

  lemma {:induction false} DealtNothing(log: seq<seq<Job>>, who: set<nat>, arity: nat, limits: CopyText.Limits, n: nat)
    requires n <= |log| && forall i :: 0 <= i < |log| ==> log[i] == []
    ensures Dealt(log, who, arity, limits, n) == multiset{}
    decreases n
  {
    if n > 0 {
      DealtNothing(log, who, arity, limits, n - 1);
    }
  }

  // ---------------------------------------------------------------- the invariant

  /** The open block: what the dump holds so far is what was sent, what came back is what was acknowledged. */
  ghost predicate OpenBooks(p: Pool, spec: BlockSpec, block: OpenBlock) {
    var n := |p.log|;
    && spec.table == block.table && spec.arity == block.ctx.arity
    && Bag(spec.rows, spec.arity, p.cfg.limits) == Dealt(p.log, Indices(n), spec.arity, p.cfg.limits, n)
    && multiset(AllOk(FileRows(p.files))) == Dealt(p.log, p.acks, spec.arity, p.cfg.limits, n)
    && p.count == |FileRows(p.files)|
  }

  ghost predicate BlockBooks(p: Pool, open: Option<BlockSpec>) {
    match p.current
    case None => open.None? && p.files == [] && p.count == 0 && p.acks == {}
    case Some(block) => open.Some? && !p.skipping && OpenBooks(p, open.value, block)
  }

  ghost predicate BooksInv(p: Pool) {
    var b := Entered(p.cfg, Scan.Flatten(p.done));
    && AllLoaded(p.results, b.closed, p.cfg.limits)
    && (!p.phase.Returned? ==> BlockBooks(p, b.open))
    && (p.phase == Returned(None) ==> p.todo == [] && p.complete)
  }

  lemma InitBooks(p: Pool, cfg: Config, events: seq<Scan.Event>, complete: bool, threads: nat)
    requires Init(p, cfg, events, complete, threads)
    ensures BooksInv(p)
  {
    assert Scan.Flatten([]) == [];
  }

  // ---------------------------------------------------------------- steps

  /** Nothing in the books changes, and if the reader returns it is not as if all were done. */
  lemma UntouchedBooks(p: Pool, q: Pool)
    requires BooksInv(p)
    requires q.cfg == p.cfg && q.done == p.done && q.results == p.results && q.todo == p.todo
    requires q.current == p.current && q.skipping == p.skipping && q.files == p.files && q.complete == p.complete && q.count == p.count && q.acks == p.acks && q.log == p.log
    requires p.phase.Returned? ==> q.phase == p.phase
    requires q.phase == Returned(None) ==> p.phase == q.phase || (p.todo == [] && p.complete)
    ensures BooksInv(q)
  {
    hide Entered, AllLoaded, Scan.Flatten, Dealt, Bag;
    assert !q.phase.Returned? ==> !p.phase.Returned?;
  }

  lemma QuietSteps(p: Pool, step: Step)
    requires BooksInv(p) && Sized(p) && Enabled(p, step)
    requires IsWorkerStep(step) || step.BeginClose? || step.DispatchFails? || step.ChannelGone? || step.Misplaced?
      || step.Finish? || step.GiveUp? || step.DropJobs? || step.Join?
    ensures BooksInv(Apply(p, step))
  {
    hide BooksInv, Perform, Cause, Stages, Wanted, PathsOf;
    UntouchedBooks(p, Apply(p, step));
  }

  /** A job without rows adds nothing to what was sent. */
  lemma SendNoRows(p: Pool, step: Step)
    requires BooksInv(p) && Sized(p) && Enabled(p, step) && (step.SendOpen? || step.SendClose?)
    ensures BooksInv(Apply(p, step))
  {
    hide Entered, AllLoaded, Scan.Flatten, Dealt, Bag;
    var q := Apply(p, step);
    var k := p.phase.k;
    var job := if step.SendOpen? then Open(p.current.value.ctx) else Close(p.current.value.ctx.generation);
    var arity := p.current.value.ctx.arity;
    assert q.log == p.log[k := p.log[k] + [job]];
    DealtTo(p.log, Indices(|p.log|), arity, p.cfg.limits, k, job, |p.log|);
    DealtTo(p.log, p.acks, arity, p.cfg.limits, k, job, |p.log|);
  }

  lemma SendRowsBooks(p: Pool)
    requires BooksInv(p) && ReaderInv(p) && Enabled(p, SendRows)
    ensures BooksInv(Apply(p, SendRows))
  {
    hide Entered, AllLoaded, Scan.Flatten, Dealt, Bag, OneEach;
    var q := Apply(p, SendRows);
    var k := Target(p);
    var bytes := p.todo[0].payload;
    var job := Rows(p.current.value.ctx.generation, bytes);
    var spec := Entered(p.cfg, Scan.Flatten(p.done)).open.value;
    LedgerEvent(p.cfg, p.done, p.todo[0]);
    DealtTo(p.log, Indices(|p.log|), spec.arity, p.cfg.limits, k, job, |p.log|);
    DealtTo(p.log, {}, spec.arity, p.cfg.limits, k, job, |p.log|);
    BagAppend(spec.rows, RowsOf(bytes), spec.arity, p.cfg.limits);
    assert OpenBooks(q, spec.(rows := spec.rows + RowsOf(bytes)), p.current.value);
  }

  lemma SkipBooks(p: Pool)
    requires BooksInv(p) && Sized(p) && Enabled(p, Skip)
    ensures BooksInv(Apply(p, Skip))
  {
    hide Entered, AllLoaded, Scan.Flatten, Dealt, Bag;
    LedgerEvent(p.cfg, p.done, p.todo[0]);
  }

  lemma StartBooks(p: Pool)
    requires BooksInv(p) && Inv(p) && Enabled(p, StartBlock)
    requires !p.skipping
    ensures BooksInv(Apply(p, StartBlock))
  {
    hide Entered, AllLoaded, Scan.Flatten, OneEach, WorkerInv, Dealt;
    var q := Apply(p, StartBlock);
    LedgerEvent(p.cfg, p.done, p.todo[0]);
    var arity := |p.todo[0].columns|;
    forall i | 0 <= i < |p.log|
      ensures p.log[i] == []
    {
      assert SentSoFar(p, i);
    }
    DealtNothing(p.log, Indices(|p.log|), arity, p.cfg.limits, |p.log|);
    DealtNobody(p.log, arity, p.cfg.limits, |p.log|);
    assert OpenBooks(q, BlockSpec(p.todo[0].table, arity, []), q.current.value);
  }

  lemma AcknowledgedRows(rows: seq<Row>, more: seq<Row>, log: seq<seq<Job>>, acks: set<nat>, i: nat, ctx: Ctx)
    requires i < |log| && i !in acks
    requires AllOk(more) == DecodeEach(LogRows(log[i]), ctx.arity, ctx.limits)
    requires multiset(AllOk(rows)) == Dealt(log, acks, ctx.arity, ctx.limits, |log|)
    ensures multiset(AllOk(rows + more)) == Dealt(log, acks + {i}, ctx.arity, ctx.limits, |log|)
  {
    hide Dealt, LogRows, CopyText.DecodeRowSpec;
    DealtJoins(log, acks, ctx.arity, ctx.limits, i, |log|);
    assert AllOk(rows + more) == AllOk(rows) + AllOk(more);
  }

  lemma AcknowledgeBooks(p: Pool, spec: BlockSpec)
    requires Inv(p) && p.phase.Collecting? && p.events != [] && p.events[0].Closed?
    requires OpenBooks(p, spec, p.current.value)
    ensures OpenBooks(Acknowledge(p, p.events[0]), spec, p.current.value)
  {
    hide WorkersInv, Dealt, OneEach, WorkerInv, EventOf, AllOk, Bag, DecodeEach, FileRows, LogRows;
    var c := p.events[0];
    PoolSteps.FrontAck(p);
    FileRowsAppend(p.files, c.files);
    AcknowledgedRows(FileRows(p.files), FileRows(c.files), p.log, p.acks, c.worker, p.current.value.ctx);
  }

  /** With every acknowledgement in, the block is loaded. */
  lemma FullBooks(q: Pool, spec: BlockSpec, block: OpenBlock)
    requires OpenBooks(q, spec, block)
    requires q.acks == Indices(|q.log|)
    ensures Loaded(BlockResult(block.table, q.files, q.count), spec, q.cfg.limits)
  {
    LoadedCount(FileRows(q.files), spec.rows, spec.arity, q.cfg.limits);
  }

  lemma ClosedBooks(q: Pool, spec: BlockSpec)
    requires q.current.Some? && q.todo != [] && q.todo[0].CopyEnd?
    requires Loaded(BlockResult(q.current.value.table, q.files, q.count), spec, q.cfg.limits)
    requires var b := Entered(q.cfg, Scan.Flatten(q.done)); AllLoaded(q.results, b.closed, q.cfg.limits) && b.open == Some(spec)
    ensures BooksInv(CloseBooks(q))
  {
    hide Entered, Scan.Flatten, Loaded;
    LedgerEvent(q.cfg, q.done, q.todo[0]);
  }

  /** A failure reported instead of an acknowledgement ends the reader and changes no books. */
  lemma FailedBooks(p: Pool, error: ReaderError)
    requires BooksInv(p) && p.phase.Collecting? && p.events != []
    ensures BooksInv(Return(p.(events := p.events[1..]), Some(error)))
  {
    hide BooksInv;
    UntouchedBooks(p, Return(p.(events := p.events[1..]), Some(error)));
  }

  lemma AckBooks(p: Pool)
    requires BooksInv(p) && Inv(p) && p.phase.Collecting? && p.events != [] && p.events[0].Closed?
    ensures p.current.Some? && p.todo != []
    ensures var q := Acknowledge(p, p.events[0]); BooksInv(if q.acked == |p.workers| then CloseBooks(q) else q)
  {
    hide Entered, Scan.Flatten, OneEach, WorkersInv, OpenBooks, Loaded, AllLoaded, Indices, CloseBooks;
    var q := Acknowledge(p, p.events[0]);
    var spec := Entered(p.cfg, Scan.Flatten(p.done)).open.value;
    AcknowledgeBooks(p, spec);
    if q.acked == |p.workers| {
      PoolSteps.FrontAck(p);
      PoolSteps.AllAcked(q.acks, |q.workers|);
      assert q.acks == Indices(|q.log|);
      FullBooks(q, spec, p.current.value);
      ClosedBooks(q, spec);
    }
  }

  lemma CollectBooks(p: Pool)
    requires BooksInv(p) && Inv(p) && Enabled(p, Collect)
    ensures BooksInv(Apply(p, Collect))
  {
    Collects(p);
    hide BooksInv, Inv, Apply, Enabled, Return, Acknowledge, CloseBooks;
    if p.events[0].Failed? {
      FailedBooks(p, FromWorker(p.events[0].worker, p.events[0].error));
    } else {
      AckBooks(p);
    }
  }
}
