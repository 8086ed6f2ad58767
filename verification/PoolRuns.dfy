/** What holds of every run of the pool, under any scheduling. */
module PoolRuns {
  import opened Bytes
  import opened Pool
  import opened PoolInv
  import opened PoolLive
  import opened PoolBooks
  import opened Ledger
  import opened Delta
  import PoolSteps
  import Scan

  /** A run under any scheduling: the steps taken, and the states passed through. */
  ghost predicate IsRun(run: seq<Pool>, steps: seq<Step>, cfg: Config, events: seq<Scan.Event>, complete: bool, threads: nat) {
    && |run| == |steps| + 1
    && Init(run[0], cfg, events, complete, threads)
    && forall i :: 0 <= i < |steps| ==>
         Sized(run[i]) && Enabled(run[i], steps[i]) && run[i + 1] == Apply(run[i], steps[i])
  }

  /** Everything every step keeps. */
  ghost predicate Sound(p: Pool, cfg: Config, events: seq<Scan.Event>, complete: bool) {
    && Inv(p)
    && PoolSteps.Bracketed(p)
    && BooksInv(p)
    && p.cfg == cfg && p.complete == complete
    && p.done + p.todo == events
  }

  lemma InitSound(p: Pool, cfg: Config, events: seq<Scan.Event>, complete: bool, threads: nat)
    requires Init(p, cfg, events, complete, threads) && Scan.Grammar(None, events).Some?
    ensures Sound(p, cfg, events, complete)
  {
    InitInv(p, cfg, events, complete, threads);
    InitBooks(p, cfg, events, complete, threads);
    assert [] + events == events;
    hide Inv, BooksInv;
  }

  lemma NotSkipping(p: Pool)
    requires PoolSteps.Bracketed(p) && Sized(p) && Enabled(p, StartBlock)
    ensures !p.skipping
  {
    hide Scan.Grammar;
    PoolSteps.NextFits(p);
    Scan.GrammarOne(Scan.Grammar(None, p.done).value, p.todo[0]);
  }

  lemma StepBooks(p: Pool, step: Step)
    requires Inv(p) && PoolSteps.Bracketed(p) && BooksInv(p) && Enabled(p, step)
    ensures BooksInv(Apply(p, step))
  {
    hide BooksInv, PoolSteps.Bracketed, WorkersInv, Enabled, OneEach;
    match step
    case Skip => SkipBooks(p);
    case StartBlock =>
      NotSkipping(p);
      StartBooks(p);
    case SendOpen => SendNoRows(p, step);
    case SendClose => SendNoRows(p, step);
    case SendRows => SendRowsBooks(p);
    case Collect => CollectBooks(p);
    case _ => QuietSteps(p, step);
  }

  /** At most one event is taken off the list. */
  ghost predicate Keeps(p: Pool, q: Pool) {
    && q.cfg == p.cfg && q.complete == p.complete
    && ((q.done == p.done && q.todo == p.todo)
        || (p.todo != [] && q.done == p.done + [p.todo[0]] && q.todo == p.todo[1..]))
  }

  lemma WorkerStepKeeps(p: Pool, step: Step)
    requires Sized(p) && Enabled(p, step) && IsWorkerStep(step)
    ensures Keeps(p, Apply(p, step))
  {
    hide Perform, Cause, Stages, PathsOf;
  }

  lemma ReaderStepKeeps(p: Pool, step: Step)
    requires Sized(p) && Enabled(p, step) && !IsWorkerStep(step)
    ensures Keeps(p, Apply(p, step))
  {
    hide Perform, Stages, Wanted, Listening;
  }

  lemma StepEvents(p: Pool, step: Step)
    requires Sized(p) && Enabled(p, step)
    ensures Apply(p, step).cfg == p.cfg && Apply(p, step).complete == p.complete
    ensures Apply(p, step).done + Apply(p, step).todo == p.done + p.todo
  {
    hide Apply, Enabled;
    if IsWorkerStep(step) {
      WorkerStepKeeps(p, step);
    } else {
      ReaderStepKeeps(p, step);
    }
    if p.todo != [] {
      assert p.done + [p.todo[0]] + p.todo[1..] == p.done + p.todo;
    }
  }

  lemma StepSound(p: Pool, step: Step, cfg: Config, events: seq<Scan.Event>, complete: bool)
    requires Sound(p, cfg, events, complete) && Enabled(p, step)
    ensures Sound(Apply(p, step), cfg, events, complete)
  {
    hide WorkersInv, OneEach, BooksInv, PoolSteps.Bracketed, Enabled, Apply;
    PoolSteps.StepInv(p, step);
    PoolSteps.StepBracketed(p, step);
    StepBooks(p, step);
    StepEvents(p, step);
  }

  lemma {:induction false} RunSound(run: seq<Pool>, steps: seq<Step>, cfg: Config, events: seq<Scan.Event>, complete: bool, threads: nat, i: nat)
    requires IsRun(run, steps, cfg, events, complete, threads) && Scan.Grammar(None, events).Some? && i < |run|
    ensures Sound(run[i], cfg, events, complete)
    decreases i
  {
    hide Sound, Init, Enabled, Apply, Sized;
    if i == 0 {
      InitSound(run[0], cfg, events, complete, threads);
    } else {
      RunSound(run, steps, cfg, events, complete, threads, i - 1);
      assert run[i] == Apply(run[i - 1], steps[i - 1]);
      StepSound(run[i - 1], steps[i - 1], cfg, events, complete);
    }
  }

  // ---------------------------------------------------------------- conservation

  /**
   * Whenever the reader has returned successfully, every wanted block was loaded: pooled over
   * the workers, exactly its rows, each decoded once, and its row count is their number.
   */
  lemma SuccessLoadsEverything(run: seq<Pool>, steps: seq<Step>, cfg: Config, events: seq<Scan.Event>, complete: bool, threads: nat, i: nat)
    requires IsRun(run, steps, cfg, events, complete, threads) && Scan.Grammar(None, events).Some? && i < |run|
    requires run[i].phase == Returned(None)
    ensures complete
    ensures AllLoaded(run[i].results, Entered(cfg, Scan.Flatten(events)).closed, cfg.limits)
  {
    RunSound(run, steps, cfg, events, complete, threads, i);
    hide IsRun, Inv, PoolSteps.Bracketed, AllLoaded;
    assert run[i].done + [] == run[i].done;
  }

  // ---------------------------------------------------------------- shutdown

  /** No run is longer than what there was to do, whatever happens in it. */
  lemma {:induction false} RunsEnd(run: seq<Pool>, steps: seq<Step>, cfg: Config, events: seq<Scan.Event>, complete: bool, threads: nat, i: nat)
    requires IsRun(run, steps, cfg, events, complete, threads) && Scan.Grammar(None, events).Some? && i < |run|
    ensures Sized(run[0]) && Sized(run[i]) && i + Cost(run[i]) <= Cost(run[0])
    decreases i
  {
    hide Init, Enabled, Apply, Cost, BooksInv, PoolSteps.Bracketed, WorkersInv, OneEach;
    RunSound(run, steps, cfg, events, complete, threads, i);
    if i > 0 {
      RunsEnd(run, steps, cfg, events, complete, threads, i - 1);
      RunSound(run, steps, cfg, events, complete, threads, i - 1);
      assert run[i] == Apply(run[i - 1], steps[i - 1]);
      StepCost(run[i - 1], steps[i - 1]);
    }
  }

  /** No run gets stuck before the pool is shut down and every worker joined. */
  lemma NoDeadlock(run: seq<Pool>, steps: seq<Step>, cfg: Config, events: seq<Scan.Event>, complete: bool, threads: nat, i: nat)
    returns (step: Step)
    requires IsRun(run, steps, cfg, events, complete, threads) && Scan.Grammar(None, events).Some? && i < |run|
    requires !Final(run[i])
    ensures Sized(run[i]) && Enabled(run[i], step) && Genuine(run[i], step)
  {
    hide IsRun, BooksInv, PoolSteps.Bracketed, WorkersInv, OneEach, Enabled, Genuine, Final;
    RunSound(run, steps, cfg, events, complete, threads, i);
    step := Progress(run[i]);
  }

  /** The reader's structural faults, and an abandoned event channel, are never seen. */
  lemma NoStructuralFault(run: seq<Pool>, steps: seq<Step>, cfg: Config, events: seq<Scan.Event>, complete: bool, threads: nat, i: nat)
    requires IsRun(run, steps, cfg, events, complete, threads) && Scan.Grammar(None, events).Some? && i < |steps|
    ensures !steps[i].Misplaced? && !steps[i].ChannelGone?
  {
    hide Init, Apply, BooksInv, PoolSteps.Bracketed, WorkersInv, OneEach, IsMisplaced;
    RunSound(run, steps, cfg, events, complete, threads, i);
    PoolSteps.NeverMisplaced(run[i]);
    ChannelNeverGone(run[i]);
    assert Enabled(run[i], steps[i]);
  }

  // ---------------------------------------------------------------- causes

  /** A failure put down to a worker is the error that worker recorded. */
  ghost predicate Blamed(p: Pool) {
    p.phase.Returned? && p.phase.outcome.Some? ==>
      match p.phase.outcome.value
      case FromWorker(w, e) => w < |p.workers| && p.workers[w].recorded == Some(e)
      case Internal => false
      case _ => true
  }

  /** Once recorded, a worker's error stays. */
  lemma RecordStays(p: Pool, step: Step, w: nat)
    requires Inv(p) && Enabled(p, step) && w < |p.workers| && p.workers[w].recorded.Some?
    ensures |Apply(p, step).workers| == |p.workers| && Apply(p, step).workers[w].recorded == p.workers[w].recorded
  {
    hide WorkersInv, OneEach, Perform, Cause;
    RecordedStops(p, w);
  }

  lemma RecordedStops(p: Pool, w: nat)
    requires Inv(p) && w < |p.workers| && p.workers[w].recorded.Some?
    ensures !p.workers[w].status.Working?
  {
    hide LogShape, Remembers, IsAck, SentSoFar, OneEach;
    assert WorkerInv(ViewOf(p, w));
  }

  lemma StepBlamed(p: Pool, step: Step)
    requires Inv(p) && PoolSteps.Bracketed(p) && Enabled(p, step) && Blamed(p)
    ensures Blamed(Apply(p, step))
  {
    hide WorkersInv, OneEach, Perform, Cause, PoolSteps.Bracketed;
    var q := Apply(p, step);
    if p.phase.Returned? {
      if p.phase.outcome.Some? && p.phase.outcome.value.FromWorker? {
        RecordStays(p, step, p.phase.outcome.value.worker);
      }
    } else if q.phase.Returned? {
      PoolSteps.NeverMisplaced(p);
      if step.DispatchFails? {
        DispatchCause(p);
      } else if step.Collect? {
        CollectCause(p);
      }
    }
  }

  /** In every run, a failure put down to a worker is the one it recorded. */
  lemma {:induction false} TrueCause(run: seq<Pool>, steps: seq<Step>, cfg: Config, events: seq<Scan.Event>, complete: bool, threads: nat, i: nat)
    requires IsRun(run, steps, cfg, events, complete, threads) && Scan.Grammar(None, events).Some? && i < |run|
    ensures Blamed(run[i])
    decreases i
  {
    hide Enabled, Apply, BooksInv, PoolSteps.Bracketed, WorkersInv, OneEach;
    if i > 0 {
      TrueCause(run, steps, cfg, events, complete, threads, i - 1);
      RunSound(run, steps, cfg, events, complete, threads, i - 1);
      assert run[i] == Apply(run[i - 1], steps[i - 1]);
      StepBlamed(run[i - 1], steps[i - 1]);
    }
  }

  // ---------------------------------------------------------------- success

  /** Nothing has failed so far. */
  ghost predicate Unfailed(p: Pool) {
    && (forall i :: 0 <= i < |p.workers| ==>
          && (p.workers[i].status.Reporting? ==> p.workers[i].status.event.Closed?)
          && (p.workers[i].status.Exited? ==> p.phase.Returned?))
    && (forall i :: 0 <= i < |p.events| ==> p.events[i].Closed?)
    && (p.phase.Returned? ==> p.phase.outcome.None?)
  }

  lemma WorkerStepUnfailed(p: Pool, step: Step)
    requires Sized(p) && Enabled(p, step) && IsWorkerStep(step) && !step.Fail?
    requires p.jobsOpen || p.phase.Returned?
    requires Unfailed(p)
    ensures Unfailed(Apply(p, step))
  {
  }

  lemma ReaderStepUnfailed(p: Pool, step: Step)
    requires Sized(p) && Enabled(p, step) && !IsWorkerStep(step)
    requires !step.GiveUp? && !step.Misplaced? && !step.ChannelGone?
    requires Unfailed(p) && p.complete
    ensures Unfailed(Apply(p, step))
  {
    hide Perform;
  }

  /**
   * A run in which the reader does not give up and no worker fails succeeds: the only way
   * out of the protocol itself is with every block loaded.
   */
  lemma {:induction false} CleanRunSucceeds(run: seq<Pool>, steps: seq<Step>, cfg: Config, events: seq<Scan.Event>, complete: bool, threads: nat, i: nat)
    requires IsRun(run, steps, cfg, events, complete, threads) && Scan.Grammar(None, events).Some? && i < |run|
    requires complete && forall k :: 0 <= k < i ==> !steps[k].GiveUp? && !steps[k].Fail?
    ensures Unfailed(run[i])
    decreases i
  {
    hide Enabled, Apply, BooksInv, PoolSteps.Bracketed, WorkersInv, OneEach, Unfailed, Init;
    if i == 0 {
      InitUnfailed(run[0], cfg, events, complete, threads);
    } else {
      CleanRunSucceeds(run, steps, cfg, events, complete, threads, i - 1);
      RunSound(run, steps, cfg, events, complete, threads, i - 1);
      NoStructuralFault(run, steps, cfg, events, complete, threads, i - 1);
      var step := steps[i - 1];
      assert run[i] == Apply(run[i - 1], step);
      if IsWorkerStep(step) {
        WorkerStepUnfailed(run[i - 1], step);
      } else {
        ReaderStepUnfailed(run[i - 1], step);
      }
    }
  }

  lemma InitUnfailed(p: Pool, cfg: Config, events: seq<Scan.Event>, complete: bool, threads: nat)
    requires Init(p, cfg, events, complete, threads)
    ensures Unfailed(p)
  {
  }
}
