/** How sessions end: always, well if nothing fails, and with the counts and history of a load. */
module SessionEnds {
  import opened Bytes
  import opened SqlText
  import opened Delta
  import opened Sink
  import opened Session
  import opened SessionInv
  import opened SessionRuns
  import Scan
  import Pool
  import PoolInv
  import PoolSteps
  import PoolRuns
  import PoolFiles
  import PoolBooks
  import PoolLive
  import Load
  import LoadSafety
  import LoadChain
  import Ledger

  // ---------------------------------------------------------------- the load's side

  /** What a step asks of storage, if anything. */
  ghost function LoadStep(s: Session, step: Step): (r: Option<Load.Step>)
    requires Enabled(s, step)
  {
    match step
    case Decode(_) => None
    case OpenTable(incoming, after, drift) => Some(Load.Open(NextName(s.pool), incoming, after, Ok(drift)))
    case OpenFails(incoming, after, error) => Some(Load.Open(NextName(s.pool), incoming, after, Err(error)))
    case CloseTable => Some(Filing(s))
    case Fails(_) => Some(Load.Abandon)
    case Burst(commit) => Some(commit)
  }

  lemma LoadFollows(s: Session, step: Step)
    requires Enabled(s, step)
    ensures match LoadStep(s, step)
      case None => Apply(s, step).load == s.load
      case Some(m) => Load.Enabled(s.load, m) && Apply(s, step).load == Load.Apply(s.load, m)
  {
    hide Pool.Enabled, Pool.Apply, Load.Enabled, Load.Apply, Alone, LastAck, FitsHeader;
  }

  lemma LoadStarts(s: Session, cfg: Pool.Config, events: seq<Scan.Event>, complete: bool, threads: nat, base: Load.Store)
    requires Init(s, cfg, events, complete, threads, base)
    ensures LoadSafety.IsRun([s.load], [], base)
  {
    LoadChain.FirstState(s.load, base);
  }

  /** One step more, as the load sees it. */
  lemma LoadGoesOn(s: Session, step: Step, loads: seq<Load.Load>, taken: seq<Load.Step>, base: Load.Store)
    returns (more: seq<Load.Load>, steps: seq<Load.Step>)
    requires Enabled(s, step) && LoadSafety.IsRun(loads, taken, base) && loads != [] && loads[|loads| - 1] == s.load
    ensures LoadSafety.IsRun(more, steps, base) && more != [] && more[|more| - 1] == Apply(s, step).load
  {
    LoadFollows(s, step);
    hide Enabled, Apply, LoadStep, LoadSafety.IsRun, Load.Enabled, Load.Apply;
    match LoadStep(s, step)
    case None => more, steps := loads, taken;
    case Some(m) =>
      LoadSafety.RunExtends(loads, taken, base, m);
      more, steps := loads + [Load.Apply(s.load, m)], taken + [m];
  }

  /**
   * What storage goes through in a session is a run of the load alone, so everything proved
   * of loads and of chains of them holds of sessions.
   */
  lemma {:induction false} LoadSide(run: seq<Session>, steps: seq<Step>, cfg: Pool.Config, events: seq<Scan.Event>, complete: bool,
                                    threads: nat, base: Load.Store, i: nat)
    returns (loads: seq<Load.Load>, taken: seq<Load.Step>)
    requires IsRun(run, steps, cfg, events, complete, threads, base) && i < |run|
    ensures LoadSafety.IsRun(loads, taken, base) && loads != [] && loads[|loads| - 1] == run[i].load
    decreases i
  {
    hide Init, Enabled, Apply, LoadSafety.IsRun;
    if i == 0 {
      LoadStarts(run[0], cfg, events, complete, threads, base);
      loads, taken := [run[0].load], [];
    } else {
      loads, taken := LoadSide(run, steps, cfg, events, complete, threads, base, i - 1);
      assert run[i] == Apply(run[i - 1], steps[i - 1]);
      loads, taken := LoadGoesOn(run[i - 1], steps[i - 1], loads, taken, base);
    }
  }

  /** The count a failed session gives is as honest as its commits' reports. */
  lemma SessionCount(run: seq<Session>, steps: seq<Step>, cfg: Pool.Config, events: seq<Scan.Event>, complete: bool,
                     threads: nat, base: Load.Store, i: nat)
    requires IsRun(run, steps, cfg, events, complete, threads, base) && i < |run|
    requires run[i].load.phase.Ended? && run[i].load.phase.verdict.CommitFailed?
    ensures LoadSafety.Honest(run[i].load)
  {
    var loads, taken := LoadSide(run, steps, cfg, events, complete, threads, base, i);
    hide IsRun, LoadSafety.IsRun, LoadSafety.Honest;
    LoadSafety.HonestCount(loads, taken, base, |loads| - 1);
  }

  /** A session continues any chain of loads over whose store it runs. */
  lemma SessionIsLeg(legs: seq<LoadChain.Leg>, run: seq<Session>, steps: seq<Step>, cfg: Pool.Config, events: seq<Scan.Event>,
                     complete: bool, threads: nat, base: Load.Store, i: nat) returns (leg: LoadChain.Leg)
    requires LoadChain.IsChain(legs, base) && i < |run|
    requires IsRun(run, steps, cfg, events, complete, threads, LoadChain.StoreBefore(legs, base, |legs|))
    ensures leg.run != [] && LoadChain.IsChain(legs + [leg], base) && LoadChain.Last(leg) == run[i].load
  {
    var store := LoadChain.StoreBefore(legs, base, |legs|);
    var loads, taken := LoadSide(run, steps, cfg, events, complete, threads, store, i);
    leg := LoadChain.Leg(loads, taken);
    hide IsRun, LoadSafety.IsRun, LoadChain.StoreBefore, LoadChain.IsChain;
    LoadChain.ChainSnoc(legs, leg, base);
  }

  // ---------------------------------------------------------------- every session ends

  /** What is left to do in storage: a commit for each target, and two turns. */
  function LoadCost(l: Load.Load): (c: nat) {
    match l.phase
    case Loading => |l.targets| + 2
    case Burst => |l.pending| + 1
    case Ended(_) => 0
  }

  /** What is left to do; opening a table costs its pool step and gains a commit. */
  function Cost(s: Session): (c: nat)
    requires Pool.Sized(s.pool)
  {
    2 * PoolLive.Cost(s.pool) + LoadCost(s.load)
  }

  lemma PoolCost(s: Session, cfg: Pool.Config, events: seq<Scan.Event>, complete: bool, base: Load.Store, d: Pool.Step)
    requires Inv(s, cfg, events, complete, base) && Pool.Sized(s.pool) && Pool.Enabled(s.pool, d)
    ensures Pool.Sized(Pool.Apply(s.pool, d)) && PoolLive.Cost(Pool.Apply(s.pool, d)) < PoolLive.Cost(s.pool)
  {
    hide PoolSteps.Bracketed, PoolBooks.BooksInv, PoolFiles.FilesInv, Load.Inv, Joint, PoolInv.Inv, Pool.Enabled, Pool.Apply;
    PoolLive.StepCost(s.pool, d);
  }

  /** A step of the load on its own: at most one more target, or one commit fewer. */
  lemma LoadStepCost(l: Load.Load, step: Load.Step)
    requires Load.Enabled(l, step)
    ensures step.Open? ==> LoadCost(Load.Apply(l, step)) <= LoadCost(l) + 1
    ensures step.CloseBlock? || step.Abandon? ==> LoadCost(Load.Apply(l, step)) <= LoadCost(l)
    ensures step.BeginBurst? || step.Commit? || step.Conclude? ==> LoadCost(Load.Apply(l, step)) < LoadCost(l)
  {
    hide IsOpening, IsCommit;
  }

  lemma PoolPartCost(s: Session, cfg: Pool.Config, events: seq<Scan.Event>, complete: bool, base: Load.Store, step: Step)
    requires Inv(s, cfg, events, complete, base) && Enabled(s, step)
    ensures Pool.Sized(Apply(s, step).pool)
    ensures if step.Burst? then Apply(s, step).pool == s.pool else PoolLive.Cost(Apply(s, step).pool) < PoolLive.Cost(s.pool)
  {
    hide Inv, Pool.Enabled, Pool.Apply, Pool.Sized, Load.Enabled, Load.Apply, PoolLive.Cost, Alone, LastAck;
    match step
    case Decode(d) => PoolCost(s, cfg, events, complete, base, d);
    case OpenTable(_, _, _) => PoolCost(s, cfg, events, complete, base, Pool.StartBlock);
    case OpenFails(_, _, _) =>
      GivesUp(s.pool);
      PoolCost(s, cfg, events, complete, base, Pool.GiveUp);
    case CloseTable => PoolCost(s, cfg, events, complete, base, Pool.Collect);
    case Fails(d) => PoolCost(s, cfg, events, complete, base, d);
    case Burst(_) =>
  }

  lemma LoadPartCost(s: Session, step: Step)
    requires Enabled(s, step)
    ensures if step.Burst? then LoadCost(Apply(s, step).load) < LoadCost(s.load) else LoadCost(Apply(s, step).load) <= LoadCost(s.load) + 1
  {
    LoadFollows(s, step);
    hide Apply, Load.Enabled, Load.Apply, LoadCost, Pool.Enabled, Alone;
    match LoadStep(s, step)
    case None =>
    case Some(m) => LoadStepCost(s.load, m);
  }

  /** Every step brings the session closer to its end. */
  lemma StepCost(s: Session, cfg: Pool.Config, events: seq<Scan.Event>, complete: bool, base: Load.Store, step: Step)
    requires Inv(s, cfg, events, complete, base) && Enabled(s, step)
    ensures Pool.Sized(Apply(s, step).pool) && Cost(Apply(s, step)) < Cost(s)
  {
    hide Inv, Apply, LoadCost, PoolLive.Cost;
    PoolPartCost(s, cfg, events, complete, base, step);
    LoadPartCost(s, step);
  }

  lemma HoldsSized(s: Session, cfg: Pool.Config, events: seq<Scan.Event>, complete: bool, base: Load.Store)
    requires Inv(s, cfg, events, complete, base)
    ensures Pool.Sized(s.pool) && PoolInv.Inv(s.pool) && PoolSteps.Bracketed(s.pool) && s.pool.complete == complete
  {
    hide PoolBooks.BooksInv, PoolFiles.FilesInv, Load.Inv, Joint, PoolSteps.Bracketed, PoolInv.WorkersInv;
  }

  /** No session is longer than what there was to do, whatever happens in it. */
  lemma {:induction false} SessionsEnd(run: seq<Session>, steps: seq<Step>, cfg: Pool.Config, events: seq<Scan.Event>, complete: bool,
                                       threads: nat, base: Load.Store, i: nat)
    requires IsRun(run, steps, cfg, events, complete, threads, base) && Scan.Grammar(None, events).Some? && i < |run|
    ensures Pool.Sized(run[0].pool) && Pool.Sized(run[i].pool) && i + Cost(run[i]) <= Cost(run[0])
    decreases i
  {
    RunHolds(run, steps, cfg, events, complete, threads, base, i);
    hide Inv, Init, Enabled, Apply, Cost, Pool.Sized;
    HoldsSized(run[i], cfg, events, complete, base);
    if i > 0 {
      SessionsEnd(run, steps, cfg, events, complete, threads, base, i - 1);
      RunHolds(run, steps, cfg, events, complete, threads, base, i - 1);
      assert run[i] == Apply(run[i - 1], steps[i - 1]);
      StepCost(run[i - 1], cfg, events, complete, base, steps[i - 1]);
    }
  }

  // ---------------------------------------------------------------- no session gets stuck

  predicate Starts(cfg: Pool.Config, e: Scan.Event) {
    e.CopyStart? && Pool.Wanted(cfg, e.table)
  }

  /** No wanted table has two blocks, and no header names a column twice. */
  ghost predicate OncePerTable(cfg: Pool.Config, events: seq<Scan.Event>) {
    && (forall i, j :: 0 <= i < j < |events| && Starts(cfg, events[i]) && Starts(cfg, events[j]) ==>
          Qualified(events[i].table) != Qualified(events[j].table))
    && (forall i, a, b :: 0 <= i < |events| && Starts(cfg, events[i]) && 0 <= a < b < |events[i].columns| ==>
          events[i].columns[a] != events[i].columns[b])
  }

  ghost predicate Started(cfg: Pool.Config, done: seq<Scan.Event>, t: TableName) {
    exists j :: 0 <= j < |done| && Starts(cfg, done[j]) && done[j].table == t
  }

  lemma StartedLater(cfg: Pool.Config, done: seq<Scan.Event>, e: Scan.Event, t: TableName)
    requires Started(cfg, done, t) || (Starts(cfg, e) && e.table == t)
    ensures Started(cfg, done + [e], t)
  {
    var more := done + [e];
    if Started(cfg, done, t) {
      var j :| 0 <= j < |done| && Starts(cfg, done[j]) && done[j].table == t;
      assert more[j] == done[j];
    } else {
      assert more[|done|] == e;
    }
  }

  /** Every block in the books began with a header. */
  lemma {:induction false} BooksStarted(cfg: Pool.Config, done: seq<Scan.Event>)
    ensures var b := Ledger.Entered(cfg, Scan.Flatten(done));
      && (b.open.Some? ==> Started(cfg, done, b.open.value.table))
      && forall k :: 0 <= k < |b.closed| ==> Started(cfg, done, b.closed[k].table)
    decreases |done|
  {
    if done == [] {
      assert Scan.Flatten(done) == [];
    } else {
      var init, e := done[..|done| - 1], done[|done| - 1];
      assert done == init + [e];
      BooksStarted(cfg, init);
      Ledger.LedgerEvent(cfg, init, e);
      var b, was := Ledger.Entered(cfg, Scan.Flatten(done)), Ledger.Entered(cfg, Scan.Flatten(init));
      hide Started, Ledger.Entered, Scan.Flatten, RowsOf, Pool.Wanted;
      if b.open.Some? {
        StartedLater(cfg, init, e, b.open.value.table);
      }
      forall k | 0 <= k < |b.closed|
        ensures Started(cfg, done, b.closed[k].table)
      {
        StartedLater(cfg, init, e, b.closed[k].table);
      }
    }
  }

  /** The targets so far are the tables of the blocks closed so far. */
  lemma TargetsStarted(s: Session, cfg: Pool.Config, events: seq<Scan.Event>, complete: bool, base: Load.Store, k: nat)
    returns (t: TableName)
    requires Inv(s, cfg, events, complete, base) && s.pool.phase.Next? && s.pool.current.None? && k < |s.load.targets|
    ensures s.load.targets[k].name == Qualified(t) && Started(cfg, s.pool.done, t)
  {
    BooksStarted(cfg, s.pool.done);
    hide PoolInv.Inv, PoolSteps.Bracketed, PoolFiles.FilesInv, Load.Inv, Unfiled, Ledger.Entered, Started, PoolBooks.BlockBooks, Load.StagedFor;
    var specs := Ledger.Entered(cfg, Scan.Flatten(s.pool.done)).closed;
    assert Ledger.AllLoaded(s.pool.results, specs, cfg.limits);
    assert Filed(s.pool.results[k], s.load, k);
    assert Ledger.Loaded(s.pool.results[k], specs[k], cfg.limits);
    t := specs[k].table;
  }

  lemma HeaderOpenable(s: Session, cfg: Pool.Config, events: seq<Scan.Event>, complete: bool, base: Load.Store)
    requires Inv(s, cfg, events, complete, base) && OncePerTable(cfg, events)
    ensures Openable(s)
  {
    HoldsSized(s, cfg, events, complete, base);
    hide PoolInv.Inv, PoolSteps.Bracketed, PoolBooks.BooksInv, PoolFiles.FilesInv, Load.Inv, Joint, Pool.Wanted, Started;
    if Pool.Enabled(s.pool, Pool.StartBlock) {
      var n := |s.pool.done|;
      assert events[n] == s.pool.todo[0] && Starts(cfg, events[n]);
      forall k | 0 <= k < |s.load.targets|
        ensures s.load.targets[k].name != NextName(s.pool)
      {
        var t := TargetsStarted(s, cfg, events, complete, base, k);
        NotAgain(cfg, events, n, t);
      }
    }
  }

  lemma NotAgain(cfg: Pool.Config, events: seq<Scan.Event>, n: nat, t: TableName)
    requires OncePerTable(cfg, events) && n < |events| && Starts(cfg, events[n]) && Started(cfg, events[..n], t)
    ensures Qualified(t) != Qualified(events[n].table)
  {
    hide Pool.Wanted, Qualified;
    var j :| 0 <= j < n && Starts(cfg, events[..n][j]) && events[..n][j].table == t;
    assert events[..n][j] == events[j];
  }

  /** The load has ended, the pool is shut down and every worker is joined. */
  predicate Over(s: Session) {
    PoolLive.Final(s.pool) && s.load.phase.Ended?
  }

  lemma SessionExtends(run: seq<Session>, steps: seq<Step>, cfg: Pool.Config, events: seq<Scan.Event>, complete: bool,
                       threads: nat, base: Load.Store, step: Step)
    requires IsRun(run, steps, cfg, events, complete, threads, base) && Enabled(run[|run| - 1], step)
    ensures IsRun(run + [Apply(run[|run| - 1], step)], steps + [step], cfg, events, complete, threads, base)
  {
    hide Enabled, Apply, Init;
    var more, taken := run + [Apply(run[|run| - 1], step)], steps + [step];
    forall i | 0 <= i < |taken|
      ensures Enabled(more[i], taken[i]) && more[i + 1] == Apply(more[i], taken[i])
    {
      if i < |steps| {
        assert taken[i] == steps[i] && more[i] == run[i] && more[i + 1] == run[i + 1];
      }
    }
  }

  /** Every step of a run from `n` on is taken for its own sake. */
  ghost predicate GenuineFrom(run: seq<Session>, steps: seq<Step>, n: nat) {
    |run| == |steps| + 1 && forall k :: n <= k < |steps| ==> Enabled(run[k], steps[k]) && Genuine(run[k], steps[k])
  }

  lemma NextStep(run: seq<Session>, steps: seq<Step>, cfg: Pool.Config, events: seq<Scan.Event>, complete: bool,
                 threads: nat, base: Load.Store) returns (step: Step)
    requires IsRun(run, steps, cfg, events, complete, threads, base) && Scan.Grammar(None, events).Some?
    requires OncePerTable(cfg, events) && !Over(run[|run| - 1])
    ensures var s := run[|run| - 1];
      && Enabled(s, step) && Genuine(s, step)
      && Pool.Sized(s.pool) && Pool.Sized(Apply(s, step).pool) && Cost(Apply(s, step)) < Cost(s)
  {
    var s := run[|run| - 1];
    RunHolds(run, steps, cfg, events, complete, threads, base, |run| - 1);
    hide IsRun, Inv, Openable, OncePerTable, Enabled, Apply, Genuine, Pool.Sized, Cost;
    HeaderOpenable(s, cfg, events, complete, base);
    step := SessionMoves(s, cfg, events, complete, base);
    HoldsSized(s, cfg, events, complete, base);
    StepCost(s, cfg, events, complete, base, step);
  }

  /** A session that is not over, continued by one such step. */
  lemma OneStepOn(run: seq<Session>, steps: seq<Step>, cfg: Pool.Config, events: seq<Scan.Event>, complete: bool,
                  threads: nat, base: Load.Store) returns (on: seq<Session>, upTo: seq<Step>)
    requires IsRun(run, steps, cfg, events, complete, threads, base) && Scan.Grammar(None, events).Some?
    requires OncePerTable(cfg, events) && |run| == |steps| + 1 && !Over(run[|run| - 1])
    ensures IsRun(on, upTo, cfg, events, complete, threads, base)
    ensures |on| == |upTo| + 1 == |run| + 1 && on[..|run|] == run && upTo[..|steps|] == steps
    ensures Enabled(run[|steps|], upTo[|steps|]) && Genuine(run[|steps|], upTo[|steps|])
    ensures Pool.Sized(run[|run| - 1].pool) && Pool.Sized(on[|run|].pool) && Cost(on[|run|]) < Cost(run[|run| - 1])
  {
    hide IsRun, OncePerTable, Enabled, Apply, Genuine, Pool.Sized, Cost, Over, Scan.Grammar;
    var step := NextStep(run, steps, cfg, events, complete, threads, base);
    SessionExtends(run, steps, cfg, events, complete, threads, base, step);
    on, upTo := run + [Apply(run[|run| - 1], step)], steps + [step];
  }

  lemma Joined(more: seq<Session>, taken: seq<Step>, on: seq<Session>, upTo: seq<Step>, run: seq<Session>, steps: seq<Step>)
    requires |on| == |upTo| + 1 == |run| + 1 == |steps| + 2 && on[..|run|] == run && upTo[..|steps|] == steps
    requires |more| == |taken| + 1 && |on| <= |more| && more[..|on|] == on && taken[..|upTo|] == upTo
    requires Enabled(run[|steps|], upTo[|steps|]) && Genuine(run[|steps|], upTo[|steps|])
    requires GenuineFrom(more, taken, |upTo|)
    ensures more[..|run|] == run && taken[..|steps|] == steps && GenuineFrom(more, taken, |steps|)
  {
    hide Enabled, Genuine;
    assert more[..|run|] == more[..|on|][..|run|];
    assert taken[..|steps|] == taken[..|upTo|][..|steps|];
    assert more[|steps|] == more[..|on|][|steps|] && taken[|steps|] == taken[..|upTo|][|steps|];
  }

  /**
   * Whatever has happened in a session so far, it can be brought to its end, and without
   * anybody giving up or anything failing that could succeed.
   */
  lemma {:induction false} CanFinish(run: seq<Session>, steps: seq<Step>, cfg: Pool.Config, events: seq<Scan.Event>, complete: bool,
                                     threads: nat, base: Load.Store)
    returns (more: seq<Session>, taken: seq<Step>)
    requires IsRun(run, steps, cfg, events, complete, threads, base) && Scan.Grammar(None, events).Some?
    requires OncePerTable(cfg, events)
    ensures IsRun(more, taken, cfg, events, complete, threads, base)
    ensures |run| <= |more| && more[..|run|] == run && taken[..|steps|] == steps
    ensures Over(more[|more| - 1]) && GenuineFrom(more, taken, |steps|)
    decreases if Pool.Sized(run[|run| - 1].pool) then Cost(run[|run| - 1]) else 0
  {
    if Over(run[|run| - 1]) {
      return run, steps;
    }
    assert |run| == |steps| + 1;
    hide *;
    var on, upTo := OneStepOn(run, steps, cfg, events, complete, threads, base);
    more, taken := CanFinish(on, upTo, cfg, events, complete, threads, base);
    Joined(more, taken, on, upTo, run, steps);
  }

  // ---------------------------------------------------------------- success

  /** Nobody gives up, no worker and no storage operation fails, and no table is refused. */
  predicate Smooth(step: Step) {
    match step
    case Decode(d) => !d.Fail?
    case Fails(d) => !d.Fail? && !d.GiveUp?
    case OpenFails(_, _, _) => false
    case Burst(commit) => commit.Commit? ==> commit.outcome.Ok?
    case _ => true
  }

  /** Nothing in storage has failed so far. */
  ghost predicate Unharmed(l: Load.Load) {
    && (forall k :: 0 <= k < |l.reports| ==> l.reports[k].outcome.Ok?)
    && (l.phase.Ended? ==> l.phase == Load.Ended(Load.Succeeded))
  }

  lemma PoolUnfailed(p: Pool.Pool, d: Pool.Step)
    requires PoolInv.Inv(p) && PoolSteps.Bracketed(p) && p.complete && PoolRuns.Unfailed(p)
    requires Pool.Enabled(p, d) && !d.Fail? && !d.GiveUp?
    ensures PoolRuns.Unfailed(Pool.Apply(p, d))
  {
    PoolSteps.NeverMisplaced(p);
    PoolLive.ChannelNeverGone(p);
    hide PoolSteps.Bracketed, PoolInv.WorkersInv, PoolInv.OneEach, Pool.IsMisplaced, PoolRuns.Unfailed, Pool.Apply;
    if Pool.IsWorkerStep(d) {
      PoolRuns.WorkerStepUnfailed(p, d);
    } else {
      PoolRuns.ReaderStepUnfailed(p, d);
    }
  }

  lemma BurstUnharmed(l: Load.Load, commit: Load.Step)
    requires Load.Enabled(l, commit) && Unharmed(l) && Smooth(Burst(commit))
    requires commit.BeginBurst? || commit.Commit? || commit.Conclude?
    ensures Unharmed(Load.Apply(l, commit))
  {
    hide IsCommit;
    var first := LoadSafety.FailureReported(l.reports, |l.reports|);
  }

  lemma PhaseOneUnharmed(l: Load.Load, step: Load.Step)
    requires Load.Enabled(l, step) && Unharmed(l) && (step.CloseBlock? || (step.Open? && step.result.Ok?))
    ensures Unharmed(Load.Apply(l, step))
  {
    hide IsOpening;
  }

  lemma StepUnharmed(s: Session, cfg: Pool.Config, events: seq<Scan.Event>, base: Load.Store, step: Step)
    requires Inv(s, cfg, events, true, base) && Enabled(s, step) && Smooth(step)
    requires PoolRuns.Unfailed(s.pool) && Unharmed(s.load)
    ensures PoolRuns.Unfailed(Apply(s, step).pool) && Unharmed(Apply(s, step).load)
  {
    HoldsSized(s, cfg, events, true, base);
    hide Inv, PoolInv.Inv, Pool.Enabled, Pool.Apply, Pool.Sized, Load.Enabled, Load.Apply, Unharmed, LastAck, PoolSteps.Bracketed;
    match step
    case Decode(d) =>
      NotGivingUp(s.pool, d);
      PoolUnfailed(s.pool, d);
    case OpenTable(incoming, after, drift) =>
      PoolUnfailed(s.pool, Pool.StartBlock);
      PhaseOneUnharmed(s.load, Load.Open(NextName(s.pool), incoming, after, Ok(drift)));
    case CloseTable =>
      PoolUnfailed(s.pool, Pool.Collect);
      PhaseOneUnharmed(s.load, Filing(s));
    case Fails(d) => PoolUnfailed(s.pool, d);
    case Burst(commit) => BurstUnharmed(s.load, commit);
  }

  lemma NotGivingUp(p: Pool.Pool, d: Pool.Step)
    requires Pool.Sized(p) && Pool.Enabled(p, d) && Alone(p, d)
    ensures !d.GiveUp?
  {
  }

  /**
   * Over a complete scan, a session in which nobody gives up and nothing fails can only end
   * with the reader back safe and every commit made.
   */
  lemma {:induction false} CleanSessionSucceeds(run: seq<Session>, steps: seq<Step>, cfg: Pool.Config, events: seq<Scan.Event>,
                                                threads: nat, base: Load.Store, i: nat)
    requires IsRun(run, steps, cfg, events, true, threads, base) && Scan.Grammar(None, events).Some? && i < |run|
    requires forall k :: 0 <= k < i ==> Smooth(steps[k])
    ensures PoolRuns.Unfailed(run[i].pool)
    ensures run[i].load.phase.Ended? ==> run[i].load.phase == Load.Ended(Load.Succeeded)
    ensures Unharmed(run[i].load)
    decreases i
  {
    if i == 0 {
      PoolRuns.InitUnfailed(run[0].pool, cfg, events, true, threads);
    } else {
      hide Inv, Init, Enabled, Apply, Smooth, PoolRuns.Unfailed;
      CleanSessionSucceeds(run, steps, cfg, events, threads, base, i - 1);
      RunHolds(run, steps, cfg, events, true, threads, base, i - 1);
      assert run[i] == Apply(run[i - 1], steps[i - 1]);
      StepUnharmed(run[i - 1], cfg, events, base, steps[i - 1]);
    }
  }
}
