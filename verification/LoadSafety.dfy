/** What one load shows, counts and keeps, over every run of it. */
module LoadSafety {
  import opened Bytes
  import opened Delta
  import opened Sink
  import opened Load
  import LoadRuns

  ghost predicate IsRun(run: seq<Load>, steps: seq<Step>, base: Store) {
    && |run| == |steps| + 1
    && Init(run[0], base)
    && forall i :: 0 <= i < |steps| ==> Enabled(run[i], steps[i]) && run[i + 1] == Apply(run[i], steps[i])
  }

  lemma {:induction false} RunInv(run: seq<Load>, steps: seq<Step>, base: Store, i: nat)
    requires IsRun(run, steps, base) && i < |run|
    ensures Inv(run[i], base)
    decreases i
  {
    hide Inv, Init, Enabled, Apply;
    if i == 0 {
      InitInv(run[0], base);
    } else {
      RunInv(run, steps, base, i - 1);
      assert run[i] == Apply(run[i - 1], steps[i - 1]);
      LoadRuns.StepInv(run[i - 1], base, steps[i - 1]);
    }
  }

  /** What a reader of the table sees. */
  function Visible(store: Store, name: Name): (files: seq<File>) {
    Head(LogOf(store, name)).files
  }

  // ---------------------------------------------------------------- before the burst

  /** While tables are being opened and staged for, and after giving up, no log is touched. */
  lemma NothingLanded(l: Load, base: Store, name: Name)
    requires Inv(l, base) && (l.phase == Loading || l.phase == Ended(Abandoned))
    ensures Visible(l.store, name) == Visible(base, name)
    ensures name in base ==> LogOf(l.store, name) == base[name]
  {
    Unlanded(l, base, name);
  }

  /** The load's commit for a table has been written. */
  ghost predicate Lands(l: Load, name: Name) {
    exists k :: k in l.landed && k < |l.targets| && l.targets[k].name == name
  }

  /** A table without a commit of this load is untouched, or was created without files. */
  lemma Unlanded(l: Load, base: Store, name: Name)
    requires Inv(l, base) && !Lands(l, name)
    ensures Visible(l.store, name) == Visible(base, name)
    ensures name in base ==> name in l.store && l.store[name] == base[name]
  {
    hide Apart, Staged, DriftOf, Proper, PhaseInv;
    if name in Names(l.targets) {
      var k :| 0 <= k < |l.targets| && l.targets[k].name == name;
      assert Tracks(l, base, k) && k !in l.landed;
      Created(l.targets[k].incoming);
    } else {
      assert Aside(base, l.store, name);
      if name !in base && name in l.store {
        var s: Schema :| l.store[name] == [[Metadata(s)]];
        Created(s);
      }
    }
  }

  // ---------------------------------------------------------------- the count

  /** The targets whose tables gained a version in the burst. */
  ghost function Changed(l: Load): (s: set<nat>) {
    set i | 0 <= i < |l.targets| && LogOf(l.store, l.targets[i].name) != l.targets[i].found :: i
  }

  lemma ChangedIsLanded(l: Load, base: Store)
    requires Inv(l, base) && Burstwise(l)
    ensures Changed(l) == l.landed
  {
    hide Apart, Staged, DriftOf, Proper, CommitActions, Head, AsideInv;
    forall i | 0 <= i < |l.targets|
      ensures i in Changed(l) <==> i in l.landed
    {
      assert Tracks(l, base, i);
    }
    assert l.landed <= Indices(|l.targets|);
  }

  lemma NotYet(init: seq<Report>, last: Report)
    requires forall a :: 0 <= a < |init| ==> init[a].target != last.target
    ensures last.target !in Succeeding(init)
  {
  }

  lemma {:induction false} CommittedCount(reports: seq<Report>)
    requires Once(reports)
    ensures Committed(reports, |reports|) == |Succeeding(reports)|
    decreases |reports|
  {
    if reports == [] {
      assert Succeeding(reports) == {};
    } else {
      hide Succeeding;
      var init, last := reports[..|reports| - 1], reports[|reports| - 1];
      assert reports == init + [last];
      CommittedCount(init);
      NotYet(init, last);
      hide Once, Reported;
      CommittedInit(reports, |init|);
      LoadRuns.ReportedSnoc(init, last);
    }
  }

  lemma {:induction false} CommittedInit(reports: seq<Report>, n: nat)
    requires n < |reports|
    ensures Committed(reports, n) == Committed(reports[..|reports| - 1], n)
    decreases n
  {
    if n > 0 {
      CommittedInit(reports, n - 1);
    }
  }

  /** Report `k` is the first failure: all before it are successes. */
  ghost predicate FailsFirst(reports: seq<Report>, k: nat) {
    && k < |reports| && reports[k].outcome.Err?
    && forall j :: 0 <= j < k ==> reports[j].outcome.Ok?
  }

  lemma {:induction false} FailureReported(reports: seq<Report>, n: nat) returns (k: nat)
    requires n <= |reports|
    ensures FirstFailure(reports, n).None? <==> forall k :: 0 <= k < n ==> reports[k].outcome.Ok?
    ensures FirstFailure(reports, n).Some? ==>
      k < n && FailsFirst(reports, k) && FirstFailure(reports, n) == Some(reports[k].target)
    decreases n
  {
    k := 0;
    if n > 0 {
      k := FailureReported(reports, n - 1);
      if FirstFailure(reports, n - 1).None? {
        k := n - 1;
      }
    }
  }

  lemma SubsetCount(a: set<nat>, b: set<nat>)
    requires a <= b
    ensures |a| <= |b| && (|a| == |b| <==> a == b)
  {
    assert b == a + (b - a);
  }

  /** The verdict names the table of report `k`, the first failure. */
  ghost predicate Blames(l: Load, k: nat)
    requires l.phase.Ended? && l.phase.verdict.CommitFailed?
  {
    && FailsFirst(l.reports, k) && l.reports[k].target < |l.targets|
    && l.phase.verdict.table == l.targets[l.reports[k].target].name
  }

  /** What a failed load says of itself is so. */
  ghost predicate Honest(l: Load)
    requires l.phase.Ended? && l.phase.verdict.CommitFailed?
  {
    var v := l.phase.verdict;
    && v.total == |l.targets|
    && (exists k :: Blames(l, k))
    && v.committed <= |Changed(l)|
    && (v.committed == |Changed(l)| <==>
          forall k :: 0 <= k < |l.reports| && l.reports[k].outcome.Err? ==> l.reports[k].target !in Changed(l))
  }

  /**
   * A load that ends in `CommitFailed` names the table of the first commit reported as failed,
   * and `committed` counts the tables that changed: never too many, and exactly, if and only if
   * no commit was reported as failed after its version was written.
   */
  lemma HonestCount(run: seq<Load>, steps: seq<Step>, base: Store, i: nat)
    requires IsRun(run, steps, base) && i < |run|
    requires run[i].phase.Ended? && run[i].phase.verdict.CommitFailed?
    ensures Honest(run[i])
  {
    RunInv(run, steps, base, i);
    var l := run[i];
    ChangedIsLanded(l, base);
    assert Once(l.reports);
    CommittedCount(l.reports);
    var k := FailureReported(l.reports, |l.reports|);
    hide IsRun, TargetsInv, AsideInv, Proper, Committed, FirstFailure, Changed, Succeeding;
    assert l.reports[k].target in Reported(l.reports);
    hide Reported;
    assert l.reports[k].target in Indices(|l.targets|);
    assert Blames(l, k);
    SubsetCount(Succeeding(l.reports), l.landed);
    AllSeen(l);
  }

  /** A burst is judged a success exactly when every commit was reported as one. */
  lemma SucceededIff(run: seq<Load>, steps: seq<Step>, base: Store, i: nat)
    requires IsRun(run, steps, base) && i < |run| && run[i].phase.Ended? && !run[i].phase.verdict.Abandoned?
    ensures run[i].phase.verdict.Succeeded? <==>
      Reported(run[i].reports) == Indices(|run[i].targets|) && forall k :: 0 <= k < |run[i].reports| ==> run[i].reports[k].outcome.Ok?
  {
    RunInv(run, steps, base, i);
    var l := run[i];
    assert Burstwise(l) && l.pending == {};
    hide IsRun, TargetsInv, AsideInv, Proper;
    var first := FailureReported(l.reports, |l.reports|);
  }

  lemma FailedNotSucceeding(reports: seq<Report>, k: nat)
    requires Once(reports) && k < |reports| && reports[k].outcome.Err?
    ensures reports[k].target !in Succeeding(reports)
  {
  }

  lemma ReportedSomewhere(reports: seq<Report>, t: nat)
    requires t in Reported(reports) && t !in Succeeding(reports)
    ensures exists k :: 0 <= k < |reports| && reports[k].outcome.Err? && reports[k].target == t
  {
  }

  lemma AllSeen(l: Load)
    requires Burstwise(l)
    ensures Succeeding(l.reports) == l.landed <==>
      forall k :: 0 <= k < |l.reports| && l.reports[k].outcome.Err? ==> l.reports[k].target !in l.landed
  {
    assert Once(l.reports);
    hide Reported, Succeeding, Once;
    if Succeeding(l.reports) == l.landed {
      forall k | 0 <= k < |l.reports| && l.reports[k].outcome.Err?
        ensures l.reports[k].target !in l.landed
      {
        FailedNotSucceeding(l.reports, k);
      }
    } else {
      var t :| t in l.landed && t !in Succeeding(l.reports);
      ReportedSomewhere(l.reports, t);
    }
  }

  lemma RunExtends(run: seq<Load>, steps: seq<Step>, base: Store, step: Step)
    requires IsRun(run, steps, base) && Enabled(run[|run| - 1], step)
    ensures IsRun(run + [Apply(run[|run| - 1], step)], steps + [step], base)
  {
    hide Enabled, Apply, Init;
    var more, taken := run + [Apply(run[|run| - 1], step)], steps + [step];
    forall i | 0 <= i < |taken|
      ensures Enabled(more[i], taken[i]) && more[i + 1] == Apply(more[i], taken[i])
    {
      if i < |steps| {
        assert taken[i] == steps[i] && more[i] == run[i] && more[i + 1] == run[i + 1];
      }
    }
  }

  /** The load of one new table. */
  lemma Opened(mode: WriteMode, name: Name) returns (run: seq<Load>, steps: seq<Step>)
    ensures IsRun(run, steps, map[]) && |run| == 3
    ensures run[2] == Load(mode, map[name := [[Metadata([])]]], Burst, [Target(name, [[Metadata([])]], [], NO_DRIFT)],
                           map[], {}, {0}, {}, [])
  {
    var l := Load(mode, map[], Loading, [], map[], {}, {}, {}, []);
    var log: Log := [[Metadata([])]];
    run, steps := [l], [];
    Created([]);
    SelfDrift([]);
    var open := Step.Open(name, [], log, Ok(NO_DRIFT));
    assert Names(l.targets) == {};
    assert Enabled(l, open);
    RunExtends(run, steps, map[], open);
    run, steps := run + [Apply(l, open)], steps + [open];
    RunExtends(run, steps, map[], BeginBurst);
    assert Indices(1) == {0};
    run, steps := run + [Apply(run[1], BeginBurst)], steps + [BeginBurst];
  }

  /** It does happen: one table, its commit written and then reported as failed. */
  lemma CountsTooFew(name: Name) returns (run: seq<Load>, steps: seq<Step>)
    ensures IsRun(run, steps, map[]) && |run| == 5
    ensures run[4].phase == Ended(CommitFailed(name, 0, 1)) && |Changed(run[4])| == 1
  {
    run, steps := Opened(Overwrite, name);
    var l := run[2];
    var t := l.targets[0];
    var commit := Commit(0, t.found + [TargetCommit(l, t)], Err(Storage));
    assert Enabled(l, commit);
    hide DriftOf, CommitActions, Head;
    RunExtends(run, steps, map[], commit);
    var landed := Apply(l, commit);
    run, steps := run + [landed], steps + [commit];
    assert landed.pending == {} && landed.reports == [Report(0, Err(Storage))];
    RunExtends(run, steps, map[], Conclude);
    assert FirstFailure(landed.reports, 1) == Some(0) && Committed(landed.reports, 1) == 0;
    var end := Apply(landed, Conclude);
    run, steps := run + [end], steps + [Conclude];
    assert Changed(end) == {0};
  }

  // ---------------------------------------------------------------- success

  /** Every target of a load that succeeded has its commit. */
  lemma AllLanded(l: Load, base: Store, k: nat)
    requires Inv(l, base) && l.phase == Ended(Succeeded) && k < |l.targets|
    ensures k in l.landed
  {
    hide TargetsInv, AsideInv, Proper;
    var first := FailureReported(l.reports, |l.reports|);
    assert k in Indices(|l.targets|);
    assert k in Reported(l.reports);
    var j :| 0 <= j < |l.reports| && l.reports[j].target == k;
    assert k in Succeeding(l.reports);
  }

  /** What a table shows once the load's commit for it has been written. */
  ghost predicate Shows(l: Load, base: Store, k: nat)
    requires k < |l.targets|
  {
    var t := l.targets[k];
    && t.name in l.store
    && Visible(l.store, t.name) == (if l.mode.Overwrite? then [] else Visible(base, t.name)) + StagedFor(l, t.name)
    && (l.mode.Overwrite? || IsEmpty(t.drift) <==> Declared(Head(LogOf(l.store, t.name)).schema) == Declared(t.incoming))
    && (l.mode.Append? ==> IsEmpty(t.drift))
  }

  /** What holds of a target whose commit was written, before anything is computed. */
  lemma LandedLog(l: Load, base: Store, k: nat)
    requires Inv(l, base) && k in l.landed && k < |l.targets|
    ensures var t := l.targets[k];
      && t.name in l.store && l.store[t.name] == t.found + [TargetCommit(l, t)]
      && Visible(base, t.name) == Head(t.found).files
      && t.drift == DriftOf(Head(t.found).schema, t.incoming) && Distinct(t.incoming)
      && Separate(Head(t.found).files + StagedFor(l, t.name))
      && (l.mode.Append? ==> IsEmpty(t.drift))
  {
    var t := l.targets[k];
    assert Tracks(l, base, k) && Staged(l, k);
    Created(t.incoming);
    hide AsideInv, Apart, PhaseInv, DriftOf, Separate, CommitActions, At;
  }

  lemma LandedShows(l: Load, base: Store, k: nat)
    requires Inv(l, base) && k in l.landed && k < |l.targets|
    ensures Shows(l, base, k)
  {
    hide Inv, DriftOf, Declared, Separate, CommitActions, Head, Distinct;
    LandedLog(l, base, k);
    var t := l.targets[k];
    var files := StagedFor(l, t.name);
    DeclaredAfterLoad(t.found, files, t.incoming, l.mode);
    if l.mode.Overwrite? {
      OverwriteShows(t.found, files, t.incoming);
      assert [] + files == files;
    } else {
      AppendShows(t.found, files, l.mode, Announced(t.drift, t.incoming));
    }
  }

  /**
   * A load that succeeds shows, in every table it opened, exactly what it staged, under the
   * dump's own columns if it overwrites; otherwise what was there and then what it staged.
   */
  lemma SuccessShows(run: seq<Load>, steps: seq<Step>, base: Store, i: nat, k: nat)
    requires IsRun(run, steps, base) && i < |run|
    requires run[i].phase == Ended(Succeeded) && k < |run[i].targets|
    ensures Shows(run[i], base, k)
  {
    RunInv(run, steps, base, i);
    AllLanded(run[i], base, k);
    LandedShows(run[i], base, k);
  }

  // ---------------------------------------------------------------- history

  /** Whatever a load does, every version recorded before it still shows what it showed. */
  lemma HistoryKept(run: seq<Load>, steps: seq<Step>, base: Store, i: nat, name: Name, n: nat)
    requires IsRun(run, steps, base) && i < |run| && name in base && n <= |base[name]|
    ensures name in run[i].store && n <= |run[i].store[name]| && At(run[i].store[name], n) == At(base[name], n)
  {
    RunInv(run, steps, base, i);
    var l := run[i];
    hide IsRun, Apart, Staged, DriftOf, Proper, PhaseInv, CommitActions, At, Head;
    if name in Names(l.targets) {
      var k :| 0 <= k < |l.targets| && l.targets[k].name == name;
      assert Tracks(l, base, k);
      TimeTravel(base[name], [TargetCommit(l, l.targets[k])], n);
    } else {
      assert Aside(base, l.store, name);
    }
  }
}
