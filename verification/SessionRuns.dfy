/** What holds of every run of a session: nothing early, everything at the end, no deadlock. */
module SessionRuns {
  import opened Bytes
  import opened SqlText
  import opened Delta
  import opened Sink
  import opened Session
  import opened SessionInv
  import CopyText
  import Scan
  import Worker
  import Pool
  import PoolInv
  import PoolSteps
  import PoolRuns
  import PoolBooks
  import PoolFiles
  import PoolLive
  import Ledger
  import Load
  import LoadSafety

  lemma {:induction false} RunHolds(run: seq<Session>, steps: seq<Step>, cfg: Pool.Config, events: seq<Scan.Event>, complete: bool,
                                    threads: nat, base: Load.Store, i: nat)
    requires IsRun(run, steps, cfg, events, complete, threads, base) && Scan.Grammar(None, events).Some? && i < |run|
    ensures Inv(run[i], cfg, events, complete, base)
    decreases i
  {
    hide Inv, Init, Enabled, Apply;
    if i == 0 {
      InitHolds(run[0], cfg, events, complete, threads, base);
    } else {
      RunHolds(run, steps, cfg, events, complete, threads, base, i - 1);
      assert run[i] == Apply(run[i - 1], steps[i - 1]);
      StepHolds(run[i - 1], cfg, events, complete, base, steps[i - 1]);
    }
  }

  // ---------------------------------------------------------------- nothing early

  lemma NothingYet(s: Session, cfg: Pool.Config, events: seq<Scan.Event>, complete: bool, base: Load.Store, name: Load.Name)
    requires Inv(s, cfg, events, complete, base) && s.pool.phase != Pool.Returned(None)
    ensures LoadSafety.Visible(s.load.store, name) == LoadSafety.Visible(base, name)
    ensures name in base ==> Load.LogOf(s.load.store, name) == base[name]
  {
    hide PoolRuns.Sound, PoolFiles.FilesInv, Load.Inv, Unfiled, Matched;
    LoadSafety.NothingLanded(s.load, base, name);
  }

  /**
   * Until the reader has returned successfully, having handled every event of a scan that
   * `finish` accepts, no table shows anything it did not show before, whatever workers,
   * storage, the stream or the scan may do; if it returns otherwise, none ever does.
   */
  lemma NothingVisibleEarly(run: seq<Session>, steps: seq<Step>, cfg: Pool.Config, events: seq<Scan.Event>, complete: bool,
                            threads: nat, base: Load.Store, i: nat, name: Load.Name)
    requires IsRun(run, steps, cfg, events, complete, threads, base) && Scan.Grammar(None, events).Some? && i < |run|
    requires run[i].pool.phase != Pool.Returned(None)
    ensures LoadSafety.Visible(run[i].load.store, name) == LoadSafety.Visible(base, name)
    ensures name in base ==> Load.LogOf(run[i].load.store, name) == base[name]
  {
    RunHolds(run, steps, cfg, events, complete, threads, base, i);
    hide IsRun, Inv;
    NothingYet(run[i], cfg, events, complete, base, name);
  }

  /** A reader that returned successfully has handled every event, and the scan is complete. */
  lemma ReadInFull(s: Session, cfg: Pool.Config, events: seq<Scan.Event>, complete: bool, base: Load.Store)
    requires Inv(s, cfg, events, complete, base) && s.pool.phase == Pool.Returned(None)
    ensures complete && s.pool.todo == [] && s.pool.done == events
  {
    hide PoolInv.Inv, PoolSteps.Bracketed, PoolFiles.FilesInv, Load.Inv, Joint, Ledger.AllLoaded;
    assert s.pool.done + [] == s.pool.done;
  }

  /**
   * The burst begins only then; and if the stream broke off, a line was malformed or `finish`
   * refuses the scan, no run ever changes what any table shows.
   */
  lemma BurstOnlyWhenRead(run: seq<Session>, steps: seq<Step>, cfg: Pool.Config, events: seq<Scan.Event>, complete: bool,
                          threads: nat, base: Load.Store, i: nat)
    requires IsRun(run, steps, cfg, events, complete, threads, base) && Scan.Grammar(None, events).Some? && i < |run|
    ensures run[i].load.phase.Burst? || (run[i].load.phase.Ended? && !run[i].load.phase.verdict.Abandoned?) ==>
      complete && run[i].pool.phase == Pool.Returned(None) && run[i].pool.done == events
    ensures !complete ==> forall name ::
      LoadSafety.Visible(run[i].load.store, name) == LoadSafety.Visible(base, name)
  {
    RunHolds(run, steps, cfg, events, complete, threads, base, i);
    var s := run[i];
    hide IsRun, PoolRuns.Sound, PoolFiles.FilesInv, Load.Inv, Unfiled, Matched, LoadSafety.Visible;
    if s.pool.phase == Pool.Returned(None) {
      ReadInFull(s, cfg, events, complete, base);
    } else {
      forall name
        ensures LoadSafety.Visible(s.load.store, name) == LoadSafety.Visible(base, name)
      {
        NothingYet(s, cfg, events, complete, base, name);
      }
    }
  }

  /** What a reader that returned successfully has had loaded. */
  lemma LoadedWhenRead(run: seq<Session>, steps: seq<Step>, cfg: Pool.Config, events: seq<Scan.Event>, complete: bool,
                       threads: nat, base: Load.Store, i: nat)
    requires IsRun(run, steps, cfg, events, complete, threads, base) && Scan.Grammar(None, events).Some? && i < |run|
    ensures run[i].pool.phase == Pool.Returned(None) ==>
      complete && run[i].pool.done == events && Ledger.AllLoaded(run[i].pool.results, Ledger.Entered(cfg, Scan.Flatten(events)).closed, cfg.limits)
  {
    RunHolds(run, steps, cfg, events, complete, threads, base, i);
    if run[i].pool.phase == Pool.Returned(None) {
      ReadInFull(run[i], cfg, events, complete, base);
    }
    hide IsRun, PoolInv.Inv, PoolSteps.Bracketed, PoolFiles.FilesInv, Load.Inv, Joint, Ledger.AllLoaded, Ledger.Entered;
  }

  // ---------------------------------------------------------------- everything at the end

  /** What a load leaves in place of what a table showed before. */
  function Kept(mode: WriteMode, base: Load.Store, name: Load.Name): (files: seq<File>) {
    if mode.Overwrite? then [] else LoadSafety.Visible(base, name)
  }

  /** A table that shows what was kept of it, and then exactly the rows of a block, each decoded. */
  ghost predicate TableShows(store: Load.Store, kept: seq<File>, spec: Ledger.BlockSpec, limits: CopyText.Limits) {
    var shown := LoadSafety.Visible(store, Qualified(spec.table));
    && kept <= shown
    && multiset(Worker.AllOk(FileRows(shown[|kept|..]))) == Ledger.Bag(spec.rows, spec.arity, limits)
  }

  /** What the load adds for target `k` is what the pool returned for block `k`. */
  lemma ShowsResult(s: Session, cfg: Pool.Config, events: seq<Scan.Event>, complete: bool, base: Load.Store, k: nat)
    requires Inv(s, cfg, events, complete, base) && k < |s.pool.results|
    requires s.load.phase == Load.Ended(Load.Succeeded)
    ensures var name := Qualified(s.pool.results[k].table);
      LoadSafety.Visible(s.load.store, name) == Kept(s.load.mode, base, name) + s.pool.results[k].files
  {
    hide PoolRuns.Sound, PoolFiles.FilesInv, Load.Inv, Unfiled, LoadSafety.Visible, Load.StagedFor;
    assert Matched(s.pool, s.load) && Filed(s.pool.results[k], s.load, k);
    LoadSafety.AllLanded(s.load, base, k);
    LoadSafety.LandedShows(s.load, base, k);
  }

  lemma Restated(store: Load.Store, kept: seq<File>, r: Pool.BlockResult, spec: Ledger.BlockSpec, limits: CopyText.Limits)
    requires Ledger.Loaded(r, spec, limits) && LoadSafety.Visible(store, Qualified(r.table)) == kept + r.files
    ensures TableShows(store, kept, spec, limits)
  {
    hide LoadSafety.Visible, Ledger.Bag;
    assert (kept + r.files)[|kept|..] == r.files;
  }

  /**
   * Once a load has succeeded, every wanted block's table shows exactly the block's rows, each
   * decoded, from the files its workers staged; after what it showed before, if the load does
   * not overwrite.
   */
  lemma TablesShowBlocks(run: seq<Session>, steps: seq<Step>, cfg: Pool.Config, events: seq<Scan.Event>, complete: bool,
                         threads: nat, base: Load.Store, i: nat, k: nat)
    requires IsRun(run, steps, cfg, events, complete, threads, base) && Scan.Grammar(None, events).Some? && i < |run|
    requires run[i].load.phase == Load.Ended(Load.Succeeded)
    requires k < |Ledger.Entered(cfg, Scan.Flatten(events)).closed|
    ensures var spec := Ledger.Entered(cfg, Scan.Flatten(events)).closed[k];
      TableShows(run[i].load.store, Kept(run[i].load.mode, base, Qualified(spec.table)), spec, cfg.limits)
  {
    LoadedWhenRead(run, steps, cfg, events, complete, threads, base, i);
    BurstOnlyWhenRead(run, steps, cfg, events, complete, threads, base, i);
    RunHolds(run, steps, cfg, events, complete, threads, base, i);
    hide IsRun, Inv, Ledger.Entered, Ledger.Loaded, TableShows, LoadSafety.Visible, Kept, Qualified;
    var specs, s := Ledger.Entered(cfg, Scan.Flatten(events)).closed, run[i];
    assert Ledger.Loaded(s.pool.results[k], specs[k], cfg.limits);
    LoadedTable(s.pool.results[k], specs[k], cfg.limits);
    ShowsResult(s, cfg, events, complete, base, k);
    Restated(s.load.store, Kept(s.load.mode, base, Qualified(specs[k].table)), s.pool.results[k], specs[k], cfg.limits);
  }

  lemma LoadedTable(r: Pool.BlockResult, spec: Ledger.BlockSpec, limits: CopyText.Limits)
    requires Ledger.Loaded(r, spec, limits)
    ensures r.table == spec.table
  {
  }

  /** At the end of a complete scan no block is under way. */
  lemma NothingUnderWay(s: Session, cfg: Pool.Config, events: seq<Scan.Event>, complete: bool, base: Load.Store)
    requires Inv(s, cfg, events, complete, base) && s.pool.phase == Pool.Returned(None)
    requires Scan.Grammar(None, events) == Some(None)
    ensures s.pool.current.None? && |s.load.targets| == |s.pool.results|
    ensures forall k :: 0 <= k < |s.load.targets| ==> s.load.targets[k].name == Qualified(s.pool.results[k].table)
  {
    ReadInFull(s, cfg, events, complete, base);
    hide PoolInv.Inv, PoolBooks.BooksInv, PoolFiles.FilesInv, Load.Inv, Unfiled, Scan.Grammar;
    assert forall k :: 0 <= k < |s.pool.results| ==> Filed(s.pool.results[k], s.load, k);
  }

  /** Every other table shows what it showed before. */
  lemma OtherTablesKept(run: seq<Session>, steps: seq<Step>, cfg: Pool.Config, events: seq<Scan.Event>, complete: bool,
                        threads: nat, base: Load.Store, i: nat, name: Load.Name)
    requires IsRun(run, steps, cfg, events, complete, threads, base) && i < |run|
    requires Scan.Grammar(None, events) == Some(None)
    requires forall k :: 0 <= k < |Ledger.Entered(cfg, Scan.Flatten(events)).closed| ==>
      Qualified(Ledger.Entered(cfg, Scan.Flatten(events)).closed[k].table) != name
    ensures LoadSafety.Visible(run[i].load.store, name) == LoadSafety.Visible(base, name)
  {
    RunHolds(run, steps, cfg, events, complete, threads, base, i);
    var s := run[i];
    var specs := Ledger.Entered(cfg, Scan.Flatten(events)).closed;
    hide IsRun, PoolInv.Inv, PoolSteps.Bracketed, PoolFiles.FilesInv, Load.Inv, Ledger.Entered, LoadSafety.Visible;
    if s.pool.phase != Pool.Returned(None) {
      NothingYet(s, cfg, events, complete, base, name);
    } else {
      NothingUnderWay(s, cfg, events, complete, base);
      ReadInFull(s, cfg, events, complete, base);
      assert Ledger.AllLoaded(s.pool.results, specs, cfg.limits);
      forall k | 0 <= k < |s.load.targets|
        ensures s.load.targets[k].name != name
      {
        assert Ledger.Loaded(s.pool.results[k], specs[k], cfg.limits);
      }
      LoadSafety.Unlanded(s.load, base, name);
    }
  }

  // ---------------------------------------------------------------- progress

  /** A step that returns with an error goes with abandoning the load, which is still possible. */
  lemma AbandonReady(p: Pool.Pool, l: Load.Load, d: Pool.Step)
    requires Gate(p, l) && Pool.Sized(p) && Pool.Enabled(p, d) && Returns(p, d)
    ensures Load.Enabled(l, Load.Abandon)
  {
    hide Pool.Enabled, Pool.Apply;
  }

  lemma AloneOtherwise(p: Pool.Pool, d: Pool.Step)
    requires Pool.Sized(p) && Pool.Enabled(p, d) && !d.StartBlock? && !(d.Collect? && LastAck(p))
    requires !(Returns(p, d) && Pool.Apply(p, d).phase.outcome.Some?)
    ensures Alone(p, d)
  {
    hide Pool.Enabled, Pool.Apply, LastAck;
  }

  lemma LastCollect(s: Session, cfg: Pool.Config, events: seq<Scan.Event>, complete: bool, base: Load.Store)
    requires Inv(s, cfg, events, complete, base) && Pool.Sized(s.pool) && Pool.Enabled(s.pool, Pool.Collect) && LastAck(s.pool)
    ensures Enabled(s, CloseTable) && Apply(s, CloseTable).pool == Pool.Apply(s.pool, Pool.Collect)
  {
    hide Inv, Pool.Apply, Load.Enabled, Load.Apply;
    FilingReady(s, cfg, events, complete, base);
  }

  /** A step taken for its own sake: nobody gives up, and neither a job nor storage fails that need not. */
  ghost predicate Genuine(s: Session, step: Step)
    requires Enabled(s, step)
  {
    match step
    case Decode(d) => PoolLive.Genuine(s.pool, d)
    case Fails(d) => PoolLive.Genuine(s.pool, d)
    case OpenFails(_, _, error) => error.SchemaChanged? || error.TableExists?
    case Burst(commit) => commit.Commit? ==> commit.outcome.Ok?
    case _ => true
  }

  /** Apart from opening tables, and dropping the jobs before the load has ended, the pool is free to move. */
  lemma PoolFollows(s: Session, cfg: Pool.Config, events: seq<Scan.Event>, complete: bool, base: Load.Store, d: Pool.Step)
    returns (step: Step)
    requires Inv(s, cfg, events, complete, base) && Pool.Sized(s.pool) && Pool.Enabled(s.pool, d)
    requires !d.StartBlock? && (d.DropJobs? ==> s.load.phase.Ended?)
    ensures Enabled(s, step) && Apply(s, step).pool == Pool.Apply(s.pool, d)
    ensures PoolLive.Genuine(s.pool, d) ==> Genuine(s, step)
  {
    hide Inv, Gate, Pool.Enabled, Pool.Apply, Pool.Sized, Load.Enabled, Load.Apply, LastAck, Alone, PoolLive.Genuine;
    if d.Collect? && LastAck(s.pool) {
      LastCollect(s, cfg, events, complete, base);
      return CloseTable;
    }
    if Returns(s.pool, d) && Pool.Apply(s.pool, d).phase.outcome.Some? {
      InvGate(s, cfg, events, complete, base);
      AbandonReady(s.pool, s.load, d);
      return Fails(d);
    }
    AloneOtherwise(s.pool, d);
    return Decode(d);
  }

  lemma InvGate(s: Session, cfg: Pool.Config, events: seq<Scan.Event>, complete: bool, base: Load.Store)
    requires Inv(s, cfg, events, complete, base)
    ensures Gate(s.pool, s.load) && Load.Inv(s.load, base)
  {
  }

  /** A commit still pending can be made. */
  lemma CommitReady(l: Load.Load, base: Load.Store, i: nat)
    requires Load.Inv(l, base) && l.phase.Burst? && i in l.pending
    ensures i < |l.targets|
    ensures var t := l.targets[i];
      Load.Enabled(l, Load.Commit(i, t.found + [Load.TargetCommit(l, t)], Ok(|t.found|)))
  {
    hide CommitActions, DriftOf, Head, Load.AsideInv, Load.Proper, Load.Apart, Load.Staged, Announced;
    assert i in Indices(|l.targets|);
    assert Load.Tracks(l, base, i);
  }

  /** The burst can always go on until it is concluded. */
  lemma LoadMoves(s: Session, base: Load.Store) returns (commit: Load.Step)
    requires Load.Inv(s.load, base) && Gate(s.pool, s.load) && Pool.Sized(s.pool)
    requires s.pool.phase.Returned? && !s.load.phase.Ended?
    ensures Enabled(s, Burst(commit)) && Genuine(s, Burst(commit))
  {
    hide Load.Inv;
    var l := s.load;
    if l.phase.Loading? {
      return Load.BeginBurst;
    }
    if i :| i in l.pending {
      hide Load.Enabled, Load.TargetCommit;
      CommitReady(l, base, i);
      var t := l.targets[i];
      return Load.Commit(i, t.found + [Load.TargetCommit(l, t)], Ok(|t.found|));
    }
    return Load.Conclude;
  }

  /** A header that can be opened: a table not opened before, its columns named apart. */
  ghost predicate Openable(s: Session) {
    Pool.Sized(s.pool) && Pool.Enabled(s.pool, Pool.StartBlock) ==>
      && NextName(s.pool) !in Load.Names(s.load.targets)
      && forall a, b :: 0 <= a < b < |s.pool.todo[0].columns| ==> s.pool.todo[0].columns[a] != s.pool.todo[0].columns[b]
  }

  lemma OpenMoves(s: Session, cfg: Pool.Config, events: seq<Scan.Event>, complete: bool, base: Load.Store) returns (step: Step)
    requires Inv(s, cfg, events, complete, base) && Openable(s)
    requires Pool.Sized(s.pool) && Pool.Enabled(s.pool, Pool.StartBlock)
    ensures Enabled(s, step) && Genuine(s, step)
  {
    hide PoolRuns.Sound, PoolFiles.FilesInv, Load.Inv, Unfiled, Matched, IsOpening;
    var columns := s.pool.todo[0].columns;
    var incoming := seq(|columns|, k requires 0 <= k < |columns| => Field(columns[k], []));
    var after, r := Opens(Load.LogOf(s.load.store, NextName(s.pool)), incoming, s.load.mode);
    match r
    case Ok(drift) => step := OpenTable(incoming, after, drift);
    case Err(error) => step := OpenFails(incoming, after, error);
  }

  /**
   * No session gets stuck before the load has ended, the pool is shut down and every worker
   * is joined, as long as no table is opened twice: there is always a step in which nobody
   * gives up and nothing fails but what cannot be done.
   */
  lemma SessionMoves(s: Session, cfg: Pool.Config, events: seq<Scan.Event>, complete: bool, base: Load.Store) returns (step: Step)
    requires Inv(s, cfg, events, complete, base) && Openable(s)
    requires !(PoolLive.Final(s.pool) && s.load.phase.Ended?)
    ensures Enabled(s, step) && Genuine(s, step)
  {
    assert PoolInv.Inv(s.pool) && Pool.Sized(s.pool);
    hide PoolInv.Inv, PoolSteps.Bracketed, PoolBooks.BooksInv, PoolFiles.FilesInv, Load.Inv, Unfiled, Matched, Enabled, Openable;
    hide Pool.Enabled, PoolLive.Genuine, Pool.Sized, Genuine;
    if PoolLive.Final(s.pool) {
      var commit := LoadMoves(s, base);
      return Burst(commit);
    }
    var d := PoolLive.Progress(s.pool);
    if d.StartBlock? {
      step := OpenMoves(s, cfg, events, complete, base);
    } else if d.DropJobs? && !s.load.phase.Ended? {
      ReturnedBefore(s.pool);
      var commit := LoadMoves(s, base);
      step := Burst(commit);
    } else {
      step := PoolFollows(s, cfg, events, complete, base, d);
    }
  }

  lemma ReturnedBefore(p: Pool.Pool)
    requires Pool.Sized(p) && Pool.Enabled(p, Pool.DropJobs)
    ensures p.phase.Returned?
  {
  }
}
