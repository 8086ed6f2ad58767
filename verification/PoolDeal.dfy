/** The payloads of a block are dealt to the workers in turn. */
module PoolDeal {
  import opened Bytes
  import opened Worker
  import opened Pool
  import Delta
  import PoolRuns
  import Scan

  /** How many payloads are among the jobs sent to a worker. */
  function Payloads(log: seq<Job>): (n: nat) {
    if log == [] then 0 else Payloads(log[..|log| - 1]) + (if log[|log| - 1].Rows? then 1 else 0)
  }

  /** What the `i`-th of `n` gets of `k` things dealt in turn. */
  function Share(k: nat, n: nat, i: nat): (s: nat)
    requires n > 0
  {
    k / n + (if i < k % n then 1 else 0)
  }

  ghost predicate InTurn(p: Pool) {
    && Sized(p)
    && forall i :: 0 <= i < |p.log| ==>
         Payloads(p.log[i]) == if p.current.Some? then Share(p.roundRobin, |p.log|, i) else 0
  }

  lemma OneJobMore(log: seq<Job>, job: Job)
    ensures Payloads(log + [job]) == Payloads(log) + (if job.Rows? then 1 else 0)
  {
    assert (log + [job])[..|log|] == log;
  }

  lemma {:induction false} Times(a: int, b: int, n: int)
    requires a < b && n > 0
    ensures a * n + n <= b * n
    decreases b - a
  {
    assert (b - 1) * n == b * n - n;
    if a < b - 1 {
      Times(a, b - 1, n);
    }
  }

  lemma OnlyQuotient(q: int, r: int, q': int, r': int, n: int)
    requires 0 <= r < n && 0 <= r' < n && q * n + r == q' * n + r'
    ensures q == q' && r == r'
  {
    if q < q' {
      Times(q, q', n);
    } else if q' < q {
      Times(q', q, n);
    }
  }

  lemma Parts(m: int, n: int)
    requires n > 0
    ensures m == m / n * n + m % n && 0 <= m % n < n
  {
  }

  lemma Divides(q: int, r: int, n: int)
    requires 0 <= r < n
    ensures (q * n + r) / n == q && (q * n + r) % n == r
  {
    var m := q * n + r;
    Parts(m, n);
    OnlyQuotient(q, r, m / n, m % n, n);
  }

  lemma OneTurnMore(k: nat, n: nat)
    requires n > 0
    ensures if k % n == n - 1 then (k + 1) / n == k / n + 1 && (k + 1) % n == 0
      else (k + 1) / n == k / n && (k + 1) % n == k % n + 1
  {
    var q, r := k / n, k % n;
    assert k == q * n + r;
    if r == n - 1 {
      assert k + 1 == (q + 1) * n + 0;
      Divides(q + 1, 0, n);
    } else {
      Divides(q, r + 1, n);
    }
  }

  lemma OneShareMore(k: nat, n: nat, i: nat)
    requires i < n
    ensures Share(k + 1, n, i) == Share(k, n, i) + (if i == k % n then 1 else 0)
  {
    OneTurnMore(k, n);
  }

  /** The payload goes to the worker whose turn it is. */
  lemma SendInTurn(p: Pool)
    requires InTurn(p) && Enabled(p, SendRows)
    ensures InTurn(Apply(p, SendRows))
  {
    hide Payloads, Share, HasRoom;
    var q := Apply(p, SendRows);
    var job := Rows(p.current.value.ctx.generation, p.todo[0].payload);
    forall i | 0 <= i < |q.log|
      ensures Payloads(q.log[i]) == Share(q.roundRobin, |q.log|, i)
    {
      OneJobMore(p.log[i], job);
      OneShareMore(p.roundRobin, |p.log|, i);
    }
  }

  lemma SameInTurn(p: Pool, q: Pool)
    requires InTurn(p) && Sized(q) && |q.log| == |p.log| && q.current == p.current && q.roundRobin == p.roundRobin
    requires forall i :: 0 <= i < |p.log| ==> Payloads(q.log[i]) == Payloads(p.log[i])
    ensures InTurn(q)
  {
  }

  /** Openings and closings are no payloads. */
  lemma OtherJobs(p: Pool, step: Step)
    requires InTurn(p) && Enabled(p, step) && (step.SendOpen? || step.SendClose?)
    ensures InTurn(Apply(p, step))
  {
    hide Payloads, Share;
    var q := Apply(p, step);
    var job := if step.SendOpen? then Open(p.current.value.ctx) else Close(p.current.value.ctx.generation);
    forall i | 0 <= i < |p.log|
      ensures Payloads(q.log[i]) == Payloads(p.log[i])
    {
      OneJobMore(p.log[i], job);
    }
    SameInTurn(p, q);
  }

  /** Where a block begins nobody has had anything. */
  lemma StartAfresh(p: Pool)
    requires InTurn(p) && Enabled(p, StartBlock)
    ensures InTurn(Apply(p, StartBlock))
  {
    hide Payloads, Wanted, Perform, Stages;
  }

  /** And where it ends the jobs are forgotten. */
  lemma EndAfresh(p: Pool)
    requires InTurn(p) && Enabled(p, Collect)
    ensures InTurn(Apply(p, Collect))
  {
    Collects(p);
    hide Share, Apply, Enabled;
  }

  lemma QuietInTurn(p: Pool, step: Step)
    requires InTurn(p) && Enabled(p, step)
    requires !step.SendOpen? && !step.SendClose? && !step.SendRows? && !step.StartBlock? && !step.Collect?
    ensures InTurn(Apply(p, step))
  {
    hide Payloads, Share, Perform, Cause, Stages, Wanted, Delta.PathsOf;
    SameInTurn(p, Apply(p, step));
  }

  lemma StepInTurn(p: Pool, step: Step)
    requires InTurn(p) && Enabled(p, step)
    ensures InTurn(Apply(p, step))
  {
    hide InTurn, Enabled, Apply;
    match step
    case SendRows => SendInTurn(p);
    case SendOpen => OtherJobs(p, step);
    case SendClose => OtherJobs(p, step);
    case StartBlock => StartAfresh(p);
    case Collect => EndAfresh(p);
    case _ => QuietInTurn(p, step);
  }

  lemma {:induction false} RunInTurn(run: seq<Pool>, steps: seq<Step>, cfg: Config, events: seq<Scan.Event>, complete: bool, threads: nat, i: nat)
    requires PoolRuns.IsRun(run, steps, cfg, events, complete, threads) && i < |run|
    ensures InTurn(run[i])
    decreases i
  {
    hide Enabled, Apply;
    if i > 0 {
      RunInTurn(run, steps, cfg, events, complete, threads, i - 1);
      hide InTurn;
      assert run[i] == Apply(run[i - 1], steps[i - 1]);
      StepInTurn(run[i - 1], steps[i - 1]);
    }
  }

  /**
   * In every reachable state, no worker was sent two payloads of the block under way more than
   * another, and none fewer than one after it.
   */
  lemma DealtEvenly(run: seq<Pool>, steps: seq<Step>, cfg: Config, events: seq<Scan.Event>, complete: bool, threads: nat, i: nat, a: nat, b: nat)
    requires PoolRuns.IsRun(run, steps, cfg, events, complete, threads) && i < |run|
    requires a < b < |run[i].log|
    ensures Payloads(run[i].log[b]) <= Payloads(run[i].log[a]) <= Payloads(run[i].log[b]) + 1
  {
    hide PoolRuns.IsRun, Payloads;
    RunInTurn(run, steps, cfg, events, complete, threads, i);
  }
}
