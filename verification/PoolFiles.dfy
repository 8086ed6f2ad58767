/** Each file the workers stage is collected once, under a path of its own. */
module PoolFiles {
  import opened Bytes
  import opened Delta
  import opened Worker
  import opened Pool
  import opened PoolInv
  import PoolSteps
  import Scan

  /** Files of one worker apart from those of another, and all under known paths. */
  ghost predicate Apart(staged: seq<seq<File>>, paths: set<nat>) {
    && (forall i :: 0 <= i < |staged| ==> Separate(staged[i]))
    && (forall i, f :: 0 <= i < |staged| && f in staged[i] ==> f.path in paths)
    && (forall i, j, f, g :: 0 <= i < j < |staged| && f in staged[i] && g in staged[j] ==> f.path != g.path)
  }

  /** What a worker's report carries is what it staged. */
  ghost predicate Reports(p: Pool)
    requires Sized(p)
  {
    && (forall i :: 0 <= i < |p.workers| && p.workers[i].status.Reporting? && p.workers[i].status.event.Closed? ==>
          p.workers[i].status.event.files == p.staged[i])
    && (forall a :: 0 <= a < |p.events| && p.events[a].Closed? ==>
          p.events[a].worker < |p.staged| && p.events[a].files == p.staged[p.events[a].worker])
  }

  /** What has been collected is what the workers counted so far have staged. */
  ghost predicate Collected(files: seq<File>, staged: seq<seq<File>>, acks: set<nat>) {
    && Separate(files)
    && forall f :: f in files ==> exists i :: i in acks && i < |staged| && f in staged[i]
  }

  ghost predicate FilesInv(p: Pool) {
    Sized(p) && Apart(p.staged, p.paths) && Reports(p) && Collected(p.files, p.staged, p.acks)
  }

  lemma InitFiles(p: Pool, cfg: Config, events: seq<Scan.Event>, complete: bool, threads: nat)
    requires Init(p, cfg, events, complete, threads)
    ensures FilesInv(p)
  {
  }

  /** New files for one worker, under paths nobody used. */
  lemma ApartUpdate(staged: seq<seq<File>>, paths: set<nat>, i: nat, files: seq<File>)
    requires Apart(staged, paths) && i < |staged|
    requires Separate(files) && forall f :: f in files ==> f.path !in paths
    ensures Apart(staged[i := files], paths + PathsOf(files))
  {
    var now := staged[i := files];
    forall j, f: File | 0 <= j < |now| && f in now[j]
      ensures f.path in paths + PathsOf(files)
    {
      if j == i {
        assert f.path in PathsOf(files);
      }
    }
    forall j, k, f: File, g: File | 0 <= j < k < |now| && f in now[j] && g in now[k]
      ensures f.path != g.path
    {
      assert j != i ==> f in staged[j];
      assert k != i ==> g in staged[k];
    }
  }

  lemma CollectedUpdate(files: seq<File>, staged: seq<seq<File>>, acks: set<nat>, i: nat, more: seq<File>)
    requires Collected(files, staged, acks) && i < |staged| && i !in acks
    ensures Collected(files, staged[i := more], acks)
  {
    forall f | f in files
      ensures exists j :: j in acks && j < |staged| && f in staged[i := more][j]
    {
      var j :| j in acks && j < |staged| && f in staged[j];
      assert staged[i := more][j] == staged[j];
    }
  }

  /** A worker with a job in hand has nothing waiting and was not counted. */
  lemma BusyHasNoMail(p: Pool, i: nat)
    requires Inv(p) && i < |p.workers| && p.workers[i].status.Working?
    ensures i !in p.acks && forall a :: 0 <= a < |p.events| ==> p.events[a].worker != i
  {
    hide Remembers, IsAck, SentSoFar, OneEach;
    assert WorkerInv(ViewOf(p, i));
    JobInHand(ViewOf(p, i));
    EventOfNone(p.events, i);
  }

  lemma WorkReports(p: Pool, i: nat, files: seq<File>)
    requires Inv(p) && Reports(p) && Enabled(p, Work(i, files))
    ensures Reports(Apply(p, Work(i, files)))
  {
    BusyHasNoMail(p, i);
    hide Inv, FileRows, AppendRows, Separate;
  }

  lemma WorkFiles(p: Pool, i: nat, files: seq<File>)
    requires Inv(p) && FilesInv(p) && Enabled(p, Work(i, files))
    ensures FilesInv(Apply(p, Work(i, files)))
  {
    BusyHasNoMail(p, i);
    WorkReports(p, i, files);
    hide Inv, FileRows, AppendRows, Apart, Collected, Reports;
    if p.workers[i].status.job.Close? {
      ApartUpdate(p.staged, p.paths, i, files);
      CollectedUpdate(p.files, p.staged, p.acks, i, files);
    } else {
      assert PathsOf(files) == {};
      assert p.paths + {} == p.paths;
    }
  }

  lemma ReportFiles(p: Pool, i: nat)
    requires Inv(p) && FilesInv(p) && Enabled(p, Report(i))
    ensures FilesInv(Apply(p, Report(i)))
  {
    hide ReaderInv, Apart, Collected, LiveInv, LogShape, SentSoFar, IsAck;
    assert WorkerInv(ViewOf(p, i));
  }

  lemma QuietWorkerFiles(p: Pool, step: Step)
    requires FilesInv(p) && Enabled(p, step) && (step.Take? || step.NoMoreJobs? || step.Fail?)
    ensures FilesInv(Apply(p, step))
  {
    hide Apart, Collected, Cause;
  }

  /** Steps of the reader that leave files and reports alone, but for the front event. */
  lemma ReaderFiles(p: Pool, step: Step)
    requires Sized(p) && FilesInv(p) && Enabled(p, step) && !IsWorkerStep(step) && !step.Collect?
    ensures FilesInv(Apply(p, step))
  {
    hide Apart, Collected, Listening, IsMisplaced, Wanted;
  }

  lemma CollectedMore(files: seq<File>, staged: seq<seq<File>>, acks: set<nat>, paths: set<nat>, i: nat)
    requires Apart(staged, paths) && Collected(files, staged, acks) && i < |staged| && i !in acks
    ensures Collected(files + staged[i], staged, acks + {i})
  {
    var all := files + staged[i];
    assert Separate(staged[i]);
    forall a, b | 0 <= a < b < |all|
      ensures all[a].path != all[b].path
    {
      if b < |files| {
        assert all[a] == files[a] && all[b] == files[b];
      } else if a >= |files| {
        assert all[a] == staged[i][a - |files|] && all[b] == staged[i][b - |files|];
      } else {
        assert all[a] in files && all[b] in staged[i];
        var j :| j in acks && j < |staged| && all[a] in staged[j];
        assert j < i || i < j;
      }
    }
    forall f | f in all
      ensures exists j :: j in acks + {i} && j < |staged| && f in staged[j]
    {
      if f in files {
        var j :| j in acks && j < |staged| && f in staged[j];
        assert j in acks + {i};
      }
    }
  }

  lemma AcknowledgeFiles(p: Pool)
    requires Inv(p) && FilesInv(p) && p.phase.Collecting? && p.events != [] && p.events[0].Closed?
    ensures var q := Acknowledge(p, p.events[0]);
      Collected(q.files, q.staged, q.acks) && Reports(q)
  {
    PoolSteps.FrontAck(p);
    hide WorkersInv, ReaderInv, WorkerInv, IsAck, Apart, Collected;
    CollectedMore(p.files, p.staged, p.acks, p.paths, p.events[0].worker);
  }

  /** A worker that was counted is silent. */
  lemma AckedSilent(v: View)
    requires WorkerInv(v) && v.acked && !v.returned
    ensures v.mail.None? && !v.w.status.Reporting?
  {
    hide LogShape, Remembers, IsAck, Jobs;
  }

  /** When every worker has acknowledged, nobody has anything left to report. */
  lemma NobodyReports(q: Pool)
    requires Sized(q) && OneEach(q.events, |q.workers|) && !q.phase.Returned?
    requires forall j :: 0 <= j < |q.workers| ==> WorkerInv(ViewOf(q, j)) && j in q.acks
    ensures q.events == []
    ensures forall j :: 0 <= j < |q.workers| ==> !q.workers[j].status.Reporting?
  {
    hide WorkerInv;
    forall j | 0 <= j < |q.workers|
      ensures EventOf(q.events, j) == None && !q.workers[j].status.Reporting?
    {
      AckedSilent(ViewOf(q, j));
    }
    FirstEvent(q.events);
  }

  lemma ClosedFiles(q: Pool)
    requires Sized(q) && q.current.Some? && q.todo != [] && q.events == []
    requires forall j :: 0 <= j < |q.workers| ==> !q.workers[j].status.Reporting?
    ensures FilesInv(CloseBooks(q))
  {
  }

  /** The last acknowledgement closes the books on nothing but silence. */
  lemma LastAckFiles(p: Pool)
    requires Inv(p) && Enabled(p, Collect) && p.events[0].Closed? && p.acked + 1 == |p.workers|
    ensures FilesInv(Apply(p, Collect))
  {
    hide WorkerInv, WorkersInv, IsAck, FilesInv, OneEach, EventOf, CloseBooks;
    var q := Acknowledge(p, p.events[0]);
    PoolSteps.AcknowledgeViews(p);
    PoolSteps.FrontAck(p);
    assert |q.acks| == |q.workers|;
    PoolSteps.AllAcked(q.acks, |q.workers|);
    NobodyReports(q);
    ClosedFiles(q);
  }

  lemma CollectFiles(p: Pool)
    requires Inv(p) && FilesInv(p) && Enabled(p, Collect)
    ensures FilesInv(Apply(p, Collect))
  {
    if p.events[0].Failed? {
      hide Apart, Collected, OneEach, WorkersInv;
    } else if p.acked + 1 == |p.workers| {
      hide FilesInv, WorkersInv, OneEach;
      LastAckFiles(p);
    } else {
      AcknowledgeFiles(p);
      hide WorkersInv, Collected, Apart, OneEach;
    }
  }

  lemma StepFiles(p: Pool, step: Step)
    requires Inv(p) && FilesInv(p) && Enabled(p, step)
    ensures FilesInv(Apply(p, step))
  {
    hide WorkersInv, OneEach, Apart, Collected, Reports, Enabled, Apply;
    match step
    case Work(i, files) => WorkFiles(p, i, files);
    case Report(i) => ReportFiles(p, i);
    case Collect => CollectFiles(p);
    case _ =>
      if IsWorkerStep(step) {
        QuietWorkerFiles(p, step);
      } else {
        ReaderFiles(p, step);
      }
  }
}
