/**
 * A whole run of `drive`: the reader and its pool on one side, opening, staging and committing
 * tables on the other, in one step relation.
 *
 * Opening a table goes with starting its block, filing its files with the last acknowledgement,
 * and giving up with any failing return of the reader. The burst of commits begins only after
 * the reader has handled every event of a scan that `finish` accepts.
 */
module Session {
  import opened Bytes
  import opened SqlText
  import opened Delta
  import opened Sink
  import Scan
  import Pool
  import Load

  datatype Session = Session(pool: Pool.Pool, load: Load.Load)

  datatype Step =
    | Decode(step: Pool.Step)
    | OpenTable(incoming: Schema, after: Log, drift: Drift)
    | OpenFails(incoming: Schema, after: Log, error: SinkError)
    | CloseTable
    | Fails(step: Pool.Step)
    | Burst(commit: Load.Step)

  /** The columns a header lists, with the types their definition gives them. */
  predicate FitsHeader(incoming: Schema, columns: seq<seq<byte>>) {
    |incoming| == |columns| && forall i :: 0 <= i < |columns| ==> incoming[i].name == columns[i]
  }

  /** The reader is at the header of a block that is to be loaded. */
  ghost predicate AtHeader(p: Pool.Pool, incoming: Schema) {
    Pool.Sized(p) && Pool.Enabled(p, Pool.StartBlock) && FitsHeader(incoming, p.todo[0].columns)
  }

  function NextName(p: Pool.Pool): (name: Load.Name)
    requires p.todo != [] && p.todo[0].CopyStart?
  {
    Qualified(p.todo[0].table)
  }

  /** The acknowledgement in front is the last one missing. */
  predicate LastAck(p: Pool.Pool) {
    p.phase.Collecting? && p.events != [] && p.events[0].Closed? && p.acked + 1 == |p.workers|
  }

  /** The files of the block under way, the last acknowledgement's included. */
  function BlockFiles(p: Pool.Pool): (files: seq<File>)
    requires LastAck(p)
  {
    p.files + p.events[0].files
  }

  /** A step after which the reader has returned, where it had not before. */
  ghost predicate Returns(p: Pool.Pool, step: Pool.Step)
    requires Pool.Sized(p) && Pool.Enabled(p, step)
  {
    !p.phase.Returned? && Pool.Apply(p, step).phase.Returned?
  }

  /** Steps of the pool that concern storage in no way. */
  ghost predicate Alone(p: Pool.Pool, step: Pool.Step)
    requires Pool.Sized(p) && Pool.Enabled(p, step)
  {
    && !step.StartBlock?
    && !(step.Collect? && LastAck(p))
    && (Returns(p, step) ==> Pool.Apply(p, step).phase == Pool.Returned(None))
  }

  function Filing(s: Session): (step: Load.Step)
    requires LastAck(s.pool) && s.load.targets != []
  {
    Load.CloseBlock(|s.load.targets| - 1, BlockFiles(s.pool))
  }

  ghost predicate Enabled(s: Session, step: Step) {
    && Pool.Sized(s.pool)
    && match step
       case Decode(d) =>
         Pool.Enabled(s.pool, d) && Alone(s.pool, d) && (d.DropJobs? ==> s.load.phase.Ended?)
       case OpenTable(incoming, after, drift) =>
         AtHeader(s.pool, incoming) && Load.Enabled(s.load, Load.Open(NextName(s.pool), incoming, after, Ok(drift)))
       case OpenFails(incoming, after, error) =>
         AtHeader(s.pool, incoming) && Load.Enabled(s.load, Load.Open(NextName(s.pool), incoming, after, Err(error)))
       case CloseTable =>
         && Pool.Enabled(s.pool, Pool.Collect) && LastAck(s.pool)
         && s.load.targets != [] && Load.Enabled(s.load, Filing(s))
       case Fails(d) =>
         && Pool.Enabled(s.pool, d) && Returns(s.pool, d) && Pool.Apply(s.pool, d).phase.outcome.Some?
         && Load.Enabled(s.load, Load.Abandon)
       case Burst(commit) =>
         && s.pool.phase == Pool.Returned(None)
         && (commit.BeginBurst? || commit.Commit? || commit.Conclude?)
         && Load.Enabled(s.load, commit)
  }

  ghost function Apply(s: Session, step: Step): (r: Session)
    requires Enabled(s, step)
  {
    match step
    case Decode(d) => s.(pool := Pool.Apply(s.pool, d))
    case OpenTable(incoming, after, drift) =>
      Session(Pool.Apply(s.pool, Pool.StartBlock),
              Load.Apply(s.load, Load.Open(NextName(s.pool), incoming, after, Ok(drift))))
    case OpenFails(incoming, after, error) =>
      Session(Pool.Return(s.pool, Some(Pool.GaveUp)),
              Load.Apply(s.load, Load.Open(NextName(s.pool), incoming, after, Err(error))))
    case CloseTable => Session(Pool.Apply(s.pool, Pool.Collect), Load.Apply(s.load, Filing(s)))
    case Fails(d) => Session(Pool.Apply(s.pool, d), Load.Apply(s.load, Load.Abandon))
    case Burst(commit) => s.(load := Load.Apply(s.load, commit))
  }

  ghost predicate Init(s: Session, cfg: Pool.Config, events: seq<Scan.Event>, complete: bool, threads: nat, base: Load.Store) {
    && Pool.Init(s.pool, cfg, events, complete, threads)
    && Load.Init(s.load, base)
    && s.load.used <= s.pool.paths
  }

  ghost predicate IsRun(run: seq<Session>, steps: seq<Step>, cfg: Pool.Config, events: seq<Scan.Event>, complete: bool,
                        threads: nat, base: Load.Store) {
    && |run| == |steps| + 1
    && Init(run[0], cfg, events, complete, threads, base)
    && forall i :: 0 <= i < |steps| ==> Enabled(run[i], steps[i]) && run[i + 1] == Apply(run[i], steps[i])
  }
}
