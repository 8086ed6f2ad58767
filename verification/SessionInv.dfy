/** What every step of a session keeps. */
module SessionInv {
  import opened Bytes
  import opened SqlText
  import opened Delta
  import opened Sink
  import opened Session
  import Scan
  import Pool
  import PoolInv
  import PoolSteps
  import PoolRuns
  import PoolFiles
  import PoolBooks
  import Load
  import LoadRuns

  /** How far the reader has come, and how far the load. */
  ghost predicate Gate(p: Pool.Pool, l: Load.Load) {
    match l.phase
    case Loading => p.phase.Returned? ==> p.phase == Pool.Returned(None)
    case Burst => p.phase == Pool.Returned(None)
    case Ended(Abandoned) => p.phase.Returned? && p.phase.outcome.Some?
    case Ended(_) => p.phase == Pool.Returned(None)
  }

  /** Nothing staged for the block under way has been filed, and no path was filed unknown. */
  ghost predicate Unfiled(staged: seq<seq<File>>, paths: set<nat>, used: set<nat>) {
    && used <= paths
    && forall i, f :: 0 <= i < |staged| && f in staged[i] ==> f.path !in used
  }

  /** Result `k` is that of target `k`: its table, and the files kept under its name. */
  ghost predicate Filed(r: Pool.BlockResult, l: Load.Load, k: nat)
    requires k < |l.targets|
  {
    l.targets[k].name == Qualified(r.table) && Load.StagedFor(l, l.targets[k].name) == r.files
  }

  /** One target for each block closed, and one for the block under way, with nothing filed yet. */
  ghost predicate Matched(p: Pool.Pool, l: Load.Load) {
    && |l.targets| == |p.results| + (if p.current.Some? then 1 else 0)
    && (forall k :: 0 <= k < |p.results| ==> Filed(p.results[k], l, k))
    && (p.current.Some? ==>
          var t := l.targets[|p.results|];
          t.name == Qualified(p.current.value.table) && t.name !in l.staged)
  }

  ghost predicate Joint(p: Pool.Pool, l: Load.Load) {
    && Gate(p, l)
    && Unfiled(p.staged, p.paths, l.used)
    && (!(p.phase.Returned? && p.phase.outcome.Some?) ==> Matched(p, l))
  }

  ghost predicate Inv(s: Session, cfg: Pool.Config, events: seq<Scan.Event>, complete: bool, base: Load.Store) {
    && PoolRuns.Sound(s.pool, cfg, events, complete)
    && PoolFiles.FilesInv(s.pool)
    && Load.Inv(s.load, base)
    && Joint(s.pool, s.load)
  }

  lemma InitHolds(s: Session, cfg: Pool.Config, events: seq<Scan.Event>, complete: bool, threads: nat, base: Load.Store)
    requires Init(s, cfg, events, complete, threads, base) && Scan.Grammar(None, events).Some?
    ensures Inv(s, cfg, events, complete, base)
  {
    PoolRuns.InitSound(s.pool, cfg, events, complete, threads);
    PoolFiles.InitFiles(s.pool, cfg, events, complete, threads);
    Load.InitInv(s.load, base);
    hide PoolRuns.Sound, PoolFiles.FilesInv, Load.Inv;
  }

  // ---------------------------------------------------------------- the pool's own steps

  /** What a step of the pool may change that storage cares about. */
  ghost predicate Leaves(p: Pool.Pool, q: Pool.Pool) {
    && q.results == p.results && q.current == p.current
    && (q.phase.Returned? <==> p.phase.Returned?) && (p.phase.Returned? ==> q.phase == p.phase)
  }

  lemma WorkerLeaves(p: Pool.Pool, step: Pool.Step)
    requires Pool.Sized(p) && Pool.Enabled(p, step) && Pool.IsWorkerStep(step)
    ensures Leaves(p, Pool.Apply(p, step))
    ensures !step.Work? ==> Pool.Apply(p, step).staged == p.staged && Pool.Apply(p, step).paths == p.paths
  {
    hide Pool.Perform, Pool.Stages, PathsOf, Pool.Cause;
  }

  lemma WorkUnfiled(p: Pool.Pool, i: nat, files: seq<File>, used: set<nat>)
    requires Pool.Sized(p) && Pool.Enabled(p, Pool.Work(i, files)) && Unfiled(p.staged, p.paths, used)
    ensures var q := Pool.Apply(p, Pool.Work(i, files)); Unfiled(q.staged, q.paths, used)
  {
    hide FileRows, Pool.RowsWritten;
    var q := Pool.Apply(p, Pool.Work(i, files));
    forall j, f: File | 0 <= j < |q.staged| && f in q.staged[j]
      ensures f.path !in used
    {
      if q.staged[j] != p.staged[j] {
        assert f in files;
      }
    }
  }

  /** A step of the reader on its own: at most it takes the front event, or ends well. */
  ghost predicate Ends(p: Pool.Pool, q: Pool.Pool) {
    && q.results == p.results && q.current == p.current && q.staged == p.staged && q.paths == p.paths
    && (p.phase.Returned? ==> q.phase == p.phase)
    && (q.phase.Returned? && !p.phase.Returned? ==> q.phase == Pool.Returned(None))
  }

  lemma CollectLeaves(p: Pool.Pool)
    requires Pool.Sized(p) && Pool.Enabled(p, Pool.Collect) && Alone(p, Pool.Collect)
    ensures Ends(p, Pool.Apply(p, Pool.Collect))
  {
  }

  lemma AloneLeaves(p: Pool.Pool, step: Pool.Step)
    requires Pool.Sized(p) && Pool.Enabled(p, step) && !Pool.IsWorkerStep(step) && !step.Collect? && Alone(p, step)
    ensures Ends(p, Pool.Apply(p, step))
  {
    hide Pool.Perform, Pool.Stages, Pool.Wanted;
  }

  lemma DecodeJoint(p: Pool.Pool, l: Load.Load, step: Pool.Step)
    requires Pool.Sized(p) && Pool.Enabled(p, step) && Alone(p, step) && Joint(p, l)
    ensures Joint(Pool.Apply(p, step), l)
  {
    if Pool.IsWorkerStep(step) {
      WorkerLeaves(p, step);
      if step.Work? {
        WorkUnfiled(p, step.i, step.files, l.used);
      }
    } else if step.Collect? {
      CollectLeaves(p);
    } else {
      AloneLeaves(p, step);
    }
    hide Pool.Enabled, Pool.Apply, Unfiled, Filed;
  }

  lemma DecodeInv(s: Session, cfg: Pool.Config, events: seq<Scan.Event>, complete: bool, base: Load.Store, step: Pool.Step)
    requires Inv(s, cfg, events, complete, base) && Enabled(s, Decode(step))
    ensures Inv(Apply(s, Decode(step)), cfg, events, complete, base)
  {
    PoolSound(s, cfg, events, complete, base, step);
    hide PoolRuns.Sound, PoolFiles.FilesInv, Load.Inv, Joint, Pool.Enabled, Pool.Apply, Alone, Pool.Sized;
    DecodeJoint(s.pool, s.load, step);
  }

  /** The pool's own invariants survive whatever the pool does. */
  lemma PoolSound(s: Session, cfg: Pool.Config, events: seq<Scan.Event>, complete: bool, base: Load.Store, step: Pool.Step)
    requires Inv(s, cfg, events, complete, base) && Pool.Sized(s.pool) && Pool.Enabled(s.pool, step)
    ensures PoolRuns.Sound(Pool.Apply(s.pool, step), cfg, events, complete)
    ensures PoolFiles.FilesInv(Pool.Apply(s.pool, step))
  {
    PoolRuns.StepSound(s.pool, step, cfg, events, complete);
    hide PoolBooks.BooksInv, PoolSteps.Bracketed, PoolInv.WorkersInv, Load.Inv, Joint, PoolFiles.FilesInv;
    PoolFiles.StepFiles(s.pool, step);
  }

  // ---------------------------------------------------------------- opening a table

  /** A target just opened has a table of its own and nothing filed under it. */
  lemma OpenedLoad(l: Load.Load, base: Load.Store, name: Load.Name, incoming: Schema, after: Log, drift: Drift)
    requires Load.Inv(l, base) && Load.Enabled(l, Load.Open(name, incoming, after, Ok(drift)))
    ensures var m := Load.Apply(l, Load.Open(name, incoming, after, Ok(drift)));
      && m.phase.Loading? && m.used == l.used && m.staged == l.staged && name !in m.staged
      && |m.targets| == |l.targets| + 1 && m.targets[..|l.targets|] == l.targets && m.targets[|l.targets|].name == name
  {
    hide Load.TargetsInv, Load.PhaseInv, Load.Proper, IsOpening, Load.Aside;
  }

  lemma MatchedOpens(p: Pool.Pool, l: Load.Load, q: Pool.Pool, m: Load.Load)
    requires Matched(p, l) && p.current.None? && q.results == p.results && q.current.Some?
    requires m.staged == l.staged && |m.targets| == |l.targets| + 1 && m.targets[..|l.targets|] == l.targets
    requires m.targets[|l.targets|].name == Qualified(q.current.value.table) && m.targets[|l.targets|].name !in m.staged
    ensures Matched(q, m)
  {
    forall k | 0 <= k < |p.results|
      ensures Filed(p.results[k], m, k)
    {
      assert Filed(p.results[k], l, k);
      assert m.targets[k] == m.targets[..|l.targets|][k];
    }
  }

  lemma StartLeaves(p: Pool.Pool)
    requires Pool.Sized(p) && Pool.Enabled(p, Pool.StartBlock)
    ensures var q := Pool.Apply(p, Pool.StartBlock);
      && p.current.None? && q.results == p.results && q.staged == p.staged && q.paths == p.paths
      && q.current.Some? && q.current.value.table == p.todo[0].table && !p.phase.Returned? && !q.phase.Returned?
  {
  }

  lemma OpenTableInv(s: Session, cfg: Pool.Config, events: seq<Scan.Event>, complete: bool, base: Load.Store, step: Step)
    requires Inv(s, cfg, events, complete, base) && step.OpenTable? && Enabled(s, step)
    ensures Inv(Apply(s, step), cfg, events, complete, base)
  {
    var name := NextName(s.pool);
    PoolSound(s, cfg, events, complete, base, Pool.StartBlock);
    LoadRuns.StepInv(s.load, base, Load.Open(name, step.incoming, step.after, Ok(step.drift)));
    OpenedLoad(s.load, base, name, step.incoming, step.after, step.drift);
    StartLeaves(s.pool);
    hide PoolRuns.Sound, PoolFiles.FilesInv, Load.Inv, Pool.Enabled, Pool.Apply, Load.Apply, Load.Enabled, Matched, Unfiled;
    MatchedOpens(s.pool, s.load, Apply(s, step).pool, Apply(s, step).load);
  }

  lemma OpenFailsLoad(l: Load.Load, name: Load.Name, incoming: Schema, after: Log, error: SinkError)
    requires Load.Enabled(l, Load.Open(name, incoming, after, Err(error)))
    ensures var m := Load.Apply(l, Load.Open(name, incoming, after, Err(error)));
      m.phase == Load.Ended(Load.Abandoned) && m.used == l.used
  {
  }

  lemma OpenFailsJoint(p: Pool.Pool, l: Load.Load, name: Load.Name, incoming: Schema, after: Log, error: SinkError)
    requires Joint(p, l) && Load.Enabled(l, Load.Open(name, incoming, after, Err(error)))
    ensures Joint(Pool.Return(p, Some(Pool.GaveUp)), Load.Apply(l, Load.Open(name, incoming, after, Err(error))))
  {
    OpenFailsLoad(l, name, incoming, after, error);
    hide Load.Enabled, Load.Apply, Matched, Unfiled;
  }

  lemma GivesUp(p: Pool.Pool)
    requires Pool.Sized(p) && Pool.Enabled(p, Pool.StartBlock)
    ensures Pool.Enabled(p, Pool.GiveUp) && Pool.Apply(p, Pool.GiveUp) == Pool.Return(p, Some(Pool.GaveUp))
  {
  }

  lemma OpenFailsInv(s: Session, cfg: Pool.Config, events: seq<Scan.Event>, complete: bool, base: Load.Store, step: Step)
    requires Inv(s, cfg, events, complete, base) && step.OpenFails? && Enabled(s, step)
    ensures Inv(Apply(s, step), cfg, events, complete, base)
  {
    var name := NextName(s.pool);
    hide PoolRuns.Sound, PoolFiles.FilesInv, Load.Inv, Pool.Enabled, Pool.Apply, Load.Apply, Load.Enabled, Joint, Pool.Sized;
    GivesUp(s.pool);
    PoolSound(s, cfg, events, complete, base, Pool.GiveUp);
    LoadRuns.StepInv(s.load, base, Load.Open(name, step.incoming, step.after, Err(step.error)));
    OpenFailsJoint(s.pool, s.load, name, step.incoming, step.after, step.error);
  }

  // ---------------------------------------------------------------- closing a block

  /** What the last acknowledgement makes of the books. */
  lemma LastAckCloses(p: Pool.Pool)
    requires Pool.Sized(p) && Pool.Enabled(p, Pool.Collect) && LastAck(p)
    ensures var q := Pool.Apply(p, Pool.Collect);
      && p.current.Some? && q.current.None? && q.paths == p.paths && !q.phase.Returned?
      && q.results == p.results + [Pool.BlockResult(p.current.value.table, BlockFiles(p), p.count + p.events[0].count)]
      && forall i :: 0 <= i < |q.staged| ==> q.staged[i] == []
  {
  }

  /** The block's files can be filed: they sit under paths of their own that nobody filed. */
  lemma FilingReady(s: Session, cfg: Pool.Config, events: seq<Scan.Event>, complete: bool, base: Load.Store)
    requires Inv(s, cfg, events, complete, base)
    requires Pool.Sized(s.pool) && Pool.Enabled(s.pool, Pool.Collect) && LastAck(s.pool)
    ensures s.load.targets != [] && Load.Enabled(s.load, Filing(s))
    ensures forall f :: f in BlockFiles(s.pool) ==> f.path in s.pool.paths
  {
    var p := s.pool;
    PoolFiles.AcknowledgeFiles(p);
    hide PoolRuns.Sound, Load.Inv, PoolFiles.Reports, Separate, Filed;
    var files := BlockFiles(p);
    forall f | f in files
      ensures f.path !in s.load.used && f.path in p.paths
    {
      var i :| i in p.acks + {p.events[0].worker} && i < |p.staged| && f in p.staged[i];
    }
  }

  lemma FiledLoad(l: Load.Load, files: seq<File>)
    requires l.targets != [] && Load.Enabled(l, Load.CloseBlock(|l.targets| - 1, files))
    requires l.targets[|l.targets| - 1].name !in l.staged
    ensures var m := Load.Apply(l, Load.CloseBlock(|l.targets| - 1, files));
      var name := l.targets[|l.targets| - 1].name;
      && m.phase.Loading? && m.targets == l.targets && m.used == l.used + PathsOf(files)
      && Load.StagedFor(m, name) == files
      && forall other :: other != name ==> Load.StagedFor(m, other) == Load.StagedFor(l, other)
  {
    assert [] + files == files;
  }

  lemma MatchedCloses(p: Pool.Pool, l: Load.Load, q: Pool.Pool, m: Load.Load, files: seq<File>, count: nat)
    requires Matched(p, l) && p.current.Some? && q.current.None? && Load.Apart(l.targets)
    requires q.results == p.results + [Pool.BlockResult(p.current.value.table, files, count)]
    requires m.targets == l.targets && Load.StagedFor(m, l.targets[|p.results|].name) == files
    requires forall other :: other != l.targets[|p.results|].name ==> Load.StagedFor(m, other) == Load.StagedFor(l, other)
    ensures Matched(q, m)
  {
    hide Load.StagedFor;
    forall k | 0 <= k < |q.results|
      ensures Filed(q.results[k], m, k)
    {
      if k < |p.results| {
        assert Filed(p.results[k], l, k) && q.results[k] == p.results[k];
        assert l.targets[k].name != l.targets[|p.results|].name;
      }
    }
  }

  lemma ClosedJoint(p: Pool.Pool, l: Load.Load, q: Pool.Pool, m: Load.Load, files: seq<File>)
    requires Unfiled(p.staged, p.paths, l.used) && Matched(q, m)
    requires q.paths == p.paths && !q.phase.Returned? && forall i :: 0 <= i < |q.staged| ==> q.staged[i] == []
    requires m.phase.Loading? && m.used == l.used + PathsOf(files) && forall f :: f in files ==> f.path in p.paths
    ensures Joint(q, m)
  {
    hide Matched;
  }

  /** Filing goes with the last acknowledgement, and keeps results and targets in step. */
  lemma CloseJoint(p: Pool.Pool, l: Load.Load)
    requires Pool.Sized(p) && Pool.Enabled(p, Pool.Collect) && LastAck(p) && Joint(p, l) && Load.Apart(l.targets)
    requires l.targets != [] && Load.Enabled(l, Filing(Session(p, l)))
    requires forall f :: f in BlockFiles(p) ==> f.path in p.paths
    ensures Joint(Pool.Apply(p, Pool.Collect), Load.Apply(l, Filing(Session(p, l))))
  {
    LastAckCloses(p);
    hide Pool.Enabled, Pool.Apply, Load.Apply, Load.Enabled, Filed, Load.StagedFor, Load.Apart;
    var files := BlockFiles(p);
    FiledLoad(l, files);
    var q, m := Pool.Apply(p, Pool.Collect), Load.Apply(l, Filing(Session(p, l)));
    MatchedCloses(p, l, q, m, files, p.count + p.events[0].count);
    ClosedJoint(p, l, q, m, files);
  }

  lemma CloseTableInv(s: Session, cfg: Pool.Config, events: seq<Scan.Event>, complete: bool, base: Load.Store)
    requires Inv(s, cfg, events, complete, base) && Enabled(s, CloseTable)
    ensures Inv(Apply(s, CloseTable), cfg, events, complete, base)
  {
    PoolSound(s, cfg, events, complete, base, Pool.Collect);
    LoadRuns.StepInv(s.load, base, Filing(s));
    FilingReady(s, cfg, events, complete, base);
    assert Load.Apart(s.load.targets);
    hide PoolRuns.Sound, PoolFiles.FilesInv, Load.Inv, Pool.Enabled, Pool.Apply, Load.Apply, Load.Enabled, Joint, Load.Apart;
    CloseJoint(s.pool, s.load);
  }

  // ---------------------------------------------------------------- failing, and the burst

  lemma FailsJoint(p: Pool.Pool, l: Load.Load, step: Pool.Step)
    requires Joint(p, l) && Pool.Sized(p) && Pool.Enabled(p, step) && Returns(p, step)
    requires Pool.Apply(p, step).phase.outcome.Some? && Load.Enabled(l, Load.Abandon)
    ensures Joint(Pool.Apply(p, step), Load.Apply(l, Load.Abandon))
  {
    FailLeaves(p, step);
    hide Pool.Enabled, Pool.Apply, Pool.Sized, Matched, Unfiled;
  }

  lemma FailsInv(s: Session, cfg: Pool.Config, events: seq<Scan.Event>, complete: bool, base: Load.Store, step: Pool.Step)
    requires Inv(s, cfg, events, complete, base) && Enabled(s, Fails(step))
    ensures Inv(Apply(s, Fails(step)), cfg, events, complete, base)
  {
    hide PoolRuns.Sound, PoolFiles.FilesInv, Load.Inv, Pool.Enabled, Pool.Apply, Pool.Sized, Load.Enabled, Load.Apply, Joint, Returns;
    PoolSound(s, cfg, events, complete, base, step);
    LoadRuns.StepInv(s.load, base, Load.Abandon);
    FailsJoint(s.pool, s.load, step);
  }

  lemma FailLeaves(p: Pool.Pool, step: Pool.Step)
    requires Pool.Sized(p) && Pool.Enabled(p, step) && Returns(p, step)
    ensures Pool.Apply(p, step).staged == p.staged && Pool.Apply(p, step).paths == p.paths
  {
    if Pool.IsWorkerStep(step) {
      hide Pool.Apply, Pool.Enabled;
      Pool.WorkersLeavePhase(p, step);
    } else {
      ReturnLeaves(p, step);
    }
  }

  lemma ReturnLeaves(p: Pool.Pool, step: Pool.Step)
    requires Pool.Sized(p) && Pool.Enabled(p, step) && Returns(p, step) && !Pool.IsWorkerStep(step)
    ensures Pool.Apply(p, step).staged == p.staged && Pool.Apply(p, step).paths == p.paths
  {
    hide Pool.Perform, Pool.Stages, Pool.Wanted, Pool.Listening, Pool.HasRoom, Pool.Addressee, Pool.IsMisplaced;
  }

  lemma BurstLoad(l: Load.Load, commit: Load.Step)
    requires Load.Enabled(l, commit) && (commit.BeginBurst? || commit.Commit? || commit.Conclude?)
    ensures var m := Load.Apply(l, commit);
      && m.targets == l.targets && m.staged == l.staged && m.used == l.used
      && (m.phase == Load.Burst || (m.phase.Ended? && !m.phase.verdict.Abandoned?))
  {
    hide IsCommit;
  }

  lemma BurstInv(s: Session, cfg: Pool.Config, events: seq<Scan.Event>, complete: bool, base: Load.Store, commit: Load.Step)
    requires Inv(s, cfg, events, complete, base) && Enabled(s, Burst(commit))
    ensures Inv(Apply(s, Burst(commit)), cfg, events, complete, base)
  {
    LoadRuns.StepInv(s.load, base, commit);
    BurstLoad(s.load, commit);
    hide PoolRuns.Sound, PoolFiles.FilesInv, Load.Inv, Load.Apply, Load.Enabled, Unfiled;
  }

  lemma StepHolds(s: Session, cfg: Pool.Config, events: seq<Scan.Event>, complete: bool, base: Load.Store, step: Step)
    requires Inv(s, cfg, events, complete, base) && Enabled(s, step)
    ensures Inv(Apply(s, step), cfg, events, complete, base)
  {
    hide Inv, Enabled, Apply;
    match step
    case Decode(d) => DecodeInv(s, cfg, events, complete, base, d);
    case OpenTable(_, _, _) => OpenTableInv(s, cfg, events, complete, base, step);
    case OpenFails(_, _, _) => OpenFailsInv(s, cfg, events, complete, base, step);
    case CloseTable => CloseTableInv(s, cfg, events, complete, base);
    case Fails(d) => FailsInv(s, cfg, events, complete, base, d);
    case Burst(commit) => BurstInv(s, cfg, events, complete, base, commit);
  }
}
