/** A run in which the reader reports a stopped pool although a worker recorded its own error. */
module PoolWitness {
  import opened Bytes
  import opened SqlText
  import opened Delta
  import opened Worker
  import opened Pool
  import opened PoolRuns
  import Scan

  function OneBlock(t: TableName): (events: seq<Scan.Event>) {
    [Scan.CopyStart(t, []), Scan.CopyEnd(t)]
  }

  function BlockCtx(cfg: Config): (ctx: Ctx) {
    Ctx(1, 0, cfg.limits, cfg.maxRows, cfg.maxBytes)
  }

  const FRESH: WorkerState := WorkerState(Idle, NO_MEMORY, None)

  /** Two workers, one empty block under way, with these jobs sent and these still queued. */
  function Midway(cfg: Config, t: TableName, phase: Phase, queues: seq<seq<Job>>, workers: seq<WorkerState>,
                  mail: seq<WorkerEvent>, log: seq<seq<Job>>): (p: Pool) {
    Pool(cfg, [Scan.CopyStart(t, [])], [Scan.CopyEnd(t)], phase, Some(OpenBlock(BlockCtx(cfg), t)), false, 1, 0,
         queues, workers, mail, true, 0, log, {}, 0, [], 0, [], true, [[], []], {})
  }

  lemma Pair<T>(a: T, b: T, x: T)
    ensures [a, b][0 := x] == [x, b] && [a, b][1 := x] == [a, x]
  {
  }

  lemma Single<T>(x: T)
    ensures [] + [x] == [x] && [x][1..] == []
  {
  }

  /** The reader sends an opening to worker 0, then to worker 1. */
  lemma Opens(cfg: Config, t: TableName)
    ensures var o := Open(BlockCtx(cfg));
      var p1 := Midway(cfg, t, Opening(0), [[], []], [FRESH, FRESH], [], [[], []]);
      var p2 := Midway(cfg, t, Opening(1), [[o], []], [FRESH, FRESH], [], [[o], []]);
      var p3 := Midway(cfg, t, Next, [[o], [o]], [FRESH, FRESH], [], [[o], [o]]);
      && Sized(p1) && Enabled(p1, SendOpen) && Apply(p1, SendOpen) == p2
      && Sized(p2) && Enabled(p2, SendOpen) && Apply(p2, SendOpen) == p3
  {
    var o := Open(BlockCtx(cfg));
    Single(o);
    Pair<seq<Job>>([], [], [o]);
    Pair<seq<Job>>([o], [], [o]);
  }

  lemma Starts(cfg: Config, t: TableName)
    requires Wanted(cfg, t)
    ensures var p0 := AtStart(cfg, t);
      && Init(p0, cfg, OneBlock(t), true, 2)
      && Sized(p0) && Enabled(p0, StartBlock)
      && Apply(p0, StartBlock) == Midway(cfg, t, Opening(0), [[], []], [FRESH, FRESH], [], [[], []])
  {
    var noJobs: seq<seq<Job>> := seq(2, _ => []);
    var noFiles: seq<seq<File>> := seq(2, _ => []);
    assert noJobs == [[], []] && noFiles == [[], []] && seq(2, _ => FRESH) == [FRESH, FRESH];
    assert OneBlock(t)[1..] == [Scan.CopyEnd(t)];
    Single(OneBlock(t)[0]);
  }

  function AtStart(cfg: Config, t: TableName): (p: Pool) {
    Pool(cfg, [], OneBlock(t), Next, None, false, 0, 0, [[], []], [FRESH, FRESH], [], true, 0, [[], []], {}, 0, [], 0, [],
         true, [[], []], {})
  }

  /** It begins to close the block: the first closing job is out. */
  lemma Closes(cfg: Config, t: TableName)
    ensures var o, c := Open(BlockCtx(cfg)), Close(1);
      var p3 := Midway(cfg, t, Next, [[o], [o]], [FRESH, FRESH], [], [[o], [o]]);
      var p4 := Midway(cfg, t, Closing(0), [[o], [o]], [FRESH, FRESH], [], [[o], [o]]);
      var p5 := Midway(cfg, t, Closing(1), [[o, c], [o]], [FRESH, FRESH], [], [[o, c], [o]]);
      && Sized(p3) && Enabled(p3, BeginClose) && Apply(p3, BeginClose) == p4
      && Sized(p4) && Enabled(p4, SendClose) && Apply(p4, SendClose) == p5
  {
    var o, c := Open(BlockCtx(cfg)), Close(1);
    assert [o] + [c] == [o, c];
    Pair([o], [o], [o, c]);
  }

  /** The first worker does its jobs: what it remembers, and what it reports. */
  lemma Performs(cfg: Config)
    ensures var o, c, ctx := Open(BlockCtx(cfg)), Close(1), BlockCtx(cfg);
      && Perform(0, NO_MEMORY, o, []) == Ok((Memory(map[1 := ctx], map[]), None))
      && Stages(NO_MEMORY, o, [], {})
      && Perform(0, Memory(map[1 := ctx], map[]), c, []) == Ok((NO_MEMORY, Some(Closed(0, 1, [], 0))))
      && Stages(Memory(map[1 := ctx], map[]), c, [], {})
  {
    var ctx := BlockCtx(cfg);
    assert map[][1 := ctx] == map[1 := ctx];
    assert map[1 := ctx] - {1} == map[];
  }

  /** So it goes: opening done, closing done, acknowledgement sent. */
  lemma Acknowledges(cfg: Config, t: TableName)
    ensures var o, c, ctx := Open(BlockCtx(cfg)), Close(1), BlockCtx(cfg);
      var log := [[o, c], [o]];
      var ack := Closed(0, 1, [], 0);
      var known := Memory(map[1 := ctx], map[]);
      var p5 := Midway(cfg, t, Closing(1), [[o, c], [o]], [FRESH, FRESH], [], log);
      var p6 := Midway(cfg, t, Closing(1), [[c], [o]], [WorkerState(Working(o), NO_MEMORY, None), FRESH], [], log);
      var p7 := Midway(cfg, t, Closing(1), [[c], [o]], [WorkerState(Idle, known, None), FRESH], [], log);
      var p8 := Midway(cfg, t, Closing(1), [[], [o]], [WorkerState(Working(c), known, None), FRESH], [], log);
      var p9 := Midway(cfg, t, Closing(1), [[], [o]], [WorkerState(Reporting(ack), NO_MEMORY, None), FRESH], [], log);
      var p10 := Midway(cfg, t, Closing(1), [[], [o]], [FRESH, FRESH], [ack], log);
      && Sized(p5) && Enabled(p5, Take(0)) && Apply(p5, Take(0)) == p6
      && Sized(p6) && Enabled(p6, Work(0, [])) && Apply(p6, Work(0, [])) == p7
      && Sized(p7) && Enabled(p7, Take(0)) && Apply(p7, Take(0)) == p8
      && Sized(p8) && Enabled(p8, Work(0, [])) && Apply(p8, Work(0, [])) == p9
      && Sized(p9) && Enabled(p9, Report(0)) && Apply(p9, Report(0)) == p10
  {
    hide Perform, Stages;
    var o, c, ctx := Open(BlockCtx(cfg)), Close(1), BlockCtx(cfg);
    var known := Memory(map[1 := ctx], map[]);
    var ack := Closed(0, 1, [], 0);
    Performs(cfg);
    assert [o, c][1..] == [c];
    Single(c);
    Single(ack);
    Pair([o, c], [o], [c]);
    Pair([c], [o], []);
    Pair(FRESH, FRESH, WorkerState(Working(o), NO_MEMORY, None));
    Pair(WorkerState(Working(o), NO_MEMORY, None), FRESH, WorkerState(Idle, known, None));
    Pair(WorkerState(Idle, known, None), FRESH, WorkerState(Working(c), known, None));
    Pair(WorkerState(Working(c), known, None), FRESH, WorkerState(Reporting(ack), NO_MEMORY, None));
    Pair(WorkerState(Reporting(ack), NO_MEMORY, None), FRESH, FRESH);
    Pair<seq<File>>([], [], []);
    assert PathsOf([]) == {};
    var none: set<nat> := {};
    assert none + PathsOf([]) == none;
  }

  lemma Troubled(o: Job)
    requires o.Open?
    ensures Cause(1, WorkerState(Working(o), NO_MEMORY, None), 0) == Trouble(0)
  {
  }

  /** Meanwhile the other worker fails at its opening and records why. */
  lemma FailsToOpen(cfg: Config, t: TableName)
    ensures var o, c := Open(BlockCtx(cfg)), Close(1);
      var log := [[o, c], [o]];
      var ack, failed, cause := Closed(0, 1, [], 0), Failed(1, Trouble(0)), Some(Trouble(0));
      var p10 := Midway(cfg, t, Closing(1), [[], [o]], [FRESH, FRESH], [ack], log);
      var p11 := Midway(cfg, t, Closing(1), [[], []], [FRESH, WorkerState(Working(o), NO_MEMORY, None)], [ack], log);
      var p12 := Midway(cfg, t, Closing(1), [[], []], [FRESH, WorkerState(Reporting(failed), NO_MEMORY, cause)], [ack], log);
      && Sized(p10) && Enabled(p10, Take(1)) && Apply(p10, Take(1)) == p11
      && Sized(p11) && Enabled(p11, Fail(1, 0)) && Apply(p11, Fail(1, 0)) == p12
  {
    hide Cause, Perform;
    var o := Open(BlockCtx(cfg));
    Troubled(o);
    Single(o);
    Pair([], [o], []);
    Pair(FRESH, FRESH, WorkerState(Working(o), NO_MEMORY, None));
    Pair(FRESH, WorkerState(Working(o), NO_MEMORY, None), WorkerState(Reporting(Failed(1, Trouble(0))), NO_MEMORY, Some(Trouble(0))));
  }

  /** It reports behind the acknowledgement and exits; the reader finds the acknowledgement. */
  lemma Misleads(cfg: Config, t: TableName)
    ensures var o, c := Open(BlockCtx(cfg)), Close(1);
      var log := [[o, c], [o]];
      var ack, failed, cause := Closed(0, 1, [], 0), Failed(1, Trouble(0)), Some(Trouble(0));
      var p12 := Midway(cfg, t, Closing(1), [[], []], [FRESH, WorkerState(Reporting(failed), NO_MEMORY, cause)], [ack], log);
      var p13 := Midway(cfg, t, Closing(1), [[], []], [FRESH, WorkerState(Exited, NO_MEMORY, cause)], [ack, failed], log);
      var p14 := Midway(cfg, t, Returned(Some(PoolStopped)), [[], []], [FRESH, WorkerState(Exited, NO_MEMORY, cause)], [failed], log);
      && Sized(p12) && Enabled(p12, Report(1)) && Apply(p12, Report(1)) == p13
      && Sized(p13) && Enabled(p13, DispatchFails) && Apply(p13, DispatchFails) == p14
  {
    hide Perform;
    var ack, failed, cause := Closed(0, 1, [], 0), Failed(1, Trouble(0)), Some(Trouble(0));
    Pair(FRESH, WorkerState(Reporting(failed), NO_MEMORY, cause), WorkerState(Exited, NO_MEMORY, cause));
    assert [ack] + [failed] == [ack, failed] && [ack, failed][1..] == [failed];
  }

  /**
   * It does happen: while closings are being sent, one worker's acknowledgement is in front of
   * the other's failure, and the reader reports that the pool stopped.
   */
  lemma StoppedForNoGivenReason(cfg: Config, t: TableName) returns (run: seq<Pool>, steps: seq<Step>)
    requires Wanted(cfg, t)
    ensures IsRun(run, steps, cfg, OneBlock(t), true, 2) && |run| == 15
    ensures run[14].phase == Returned(Some(PoolStopped))
    ensures run[14].workers == [FRESH, WorkerState(Exited, NO_MEMORY, Some(Trouble(0)))]
  {
    hide Init, Enabled, Apply, Sized, Wanted;
    var o, c, ctx := Open(BlockCtx(cfg)), Close(1), BlockCtx(cfg);
    var known := Memory(map[1 := ctx], map[]);
    var log := [[o, c], [o]];
    var ack, failed, cause := Closed(0, 1, [], 0), Failed(1, Trouble(0)), Some(Trouble(0));
    Starts(cfg, t);
    Opens(cfg, t);
    Closes(cfg, t);
    Acknowledges(cfg, t);
    FailsToOpen(cfg, t);
    Misleads(cfg, t);
    run := [
      AtStart(cfg, t),
      Midway(cfg, t, Opening(0), [[], []], [FRESH, FRESH], [], [[], []]),
      Midway(cfg, t, Opening(1), [[o], []], [FRESH, FRESH], [], [[o], []]),
      Midway(cfg, t, Next, [[o], [o]], [FRESH, FRESH], [], [[o], [o]]),
      Midway(cfg, t, Closing(0), [[o], [o]], [FRESH, FRESH], [], [[o], [o]]),
      Midway(cfg, t, Closing(1), [[o, c], [o]], [FRESH, FRESH], [], log),
      Midway(cfg, t, Closing(1), [[c], [o]], [WorkerState(Working(o), NO_MEMORY, None), FRESH], [], log),
      Midway(cfg, t, Closing(1), [[c], [o]], [WorkerState(Idle, known, None), FRESH], [], log),
      Midway(cfg, t, Closing(1), [[], [o]], [WorkerState(Working(c), known, None), FRESH], [], log),
      Midway(cfg, t, Closing(1), [[], [o]], [WorkerState(Reporting(ack), NO_MEMORY, None), FRESH], [], log),
      Midway(cfg, t, Closing(1), [[], [o]], [FRESH, FRESH], [ack], log),
      Midway(cfg, t, Closing(1), [[], []], [FRESH, WorkerState(Working(o), NO_MEMORY, None)], [ack], log),
      Midway(cfg, t, Closing(1), [[], []], [FRESH, WorkerState(Reporting(failed), NO_MEMORY, cause)], [ack], log),
      Midway(cfg, t, Closing(1), [[], []], [FRESH, WorkerState(Exited, NO_MEMORY, cause)], [ack, failed], log),
      Midway(cfg, t, Returned(Some(PoolStopped)), [[], []], [FRESH, WorkerState(Exited, NO_MEMORY, cause)], [failed], log)];
    steps := [StartBlock, SendOpen, SendOpen, BeginClose, SendClose, Take(0), Work(0, []), Take(0), Work(0, []), Report(0),
              Take(1), Fail(1, 0), Report(1), DispatchFails];
  }
}
