/** What holds of every run of a load, whatever fails and in whatever order commits finish. */
module LoadRuns {
  import opened Bytes
  import opened Delta
  import opened Sink
  import opened Load

  // ---------------------------------------------------------------- names

  lemma NamesSnoc(targets: seq<Target>, t: Target)
    ensures Names(targets + [t]) == Names(targets) + {t.name}
  {
    var all := targets + [t];
    forall n
      ensures n in Names(all) <==> n in Names(targets) + {t.name}
    {
      if n in Names(targets) {
        var i :| 0 <= i < |targets| && targets[i].name == n;
        assert all[i].name == n;
      }
      assert all[|targets|].name == t.name;
    }
  }

  lemma NameAt(targets: seq<Target>, i: nat)
    requires i < |targets|
    ensures targets[i].name in Names(targets)
  {
  }

  lemma ApartSnoc(targets: seq<Target>, t: Target)
    requires Apart(targets) && t.name !in Names(targets)
    ensures Apart(targets + [t])
  {
  }

  // ---------------------------------------------------------------- phase one

  lemma OpenStaged(l: Load, base: Store, name: Name, incoming: Schema, after: Log)
    requires Proper(base, l.used)
    requires after == if name in base then base[name] else [[Metadata(incoming)]]
    ensures Separate(Head(after).files + [])
    ensures forall f :: f in Head(after).files ==> f.path in l.used
  {
    Created(incoming);
    assert Head(after).files + [] == Head(after).files;
  }

  /** The log an opening leaves behind. */
  lemma OpenLog(l: Load, base: Store, step: Step)
    requires Inv(l, base) && step.Open? && Enabled(l, step)
    ensures step.name !in base ==> LogOf(l.store, step.name) == []
    ensures step.name in base ==> LogOf(l.store, step.name) == base[step.name] == step.after
    ensures step.name !in base ==> step.after == [] || step.after == [[Metadata(step.incoming)]]
    ensures step.result.Ok? ==> step.after != []
  {
    hide DriftOf, Distinct, Head, Staged, Tracks, Apart, PhaseInv, Separate;
    assert Aside(base, l.store, step.name);
  }

  /** A step that leaves a target's table, files and fate alone keeps what holds of it. */
  lemma Frame(l: Load, q: Load, base: Store, i: nat)
    requires i < |l.targets| && i < |q.targets| && q.targets[i] == l.targets[i]
    requires Tracks(l, base, i) && Staged(l, i)
    requires q.mode == l.mode && l.used <= q.used && (i in q.landed <==> i in l.landed)
    requires var name := l.targets[i].name;
      StagedFor(q, name) == StagedFor(l, name) && LogOf(q.store, name) == LogOf(l.store, name) && (name in l.store ==> name in q.store)
    ensures Tracks(q, base, i) && Staged(q, i)
  {
    hide Separate, DriftOf, Distinct, CommitActions, Head, Announced, IsEmpty, StagedFor;
  }

  lemma FrameAll(l: Load, q: Load, base: Store)
    requires TargetsInv(l, base) && q.targets == l.targets && q.store == l.store && q.staged == l.staged
    requires q.mode == l.mode && l.used <= q.used && q.landed == l.landed
    ensures TargetsInv(q, base)
  {
    hide Tracks, Staged;
    forall i | 0 <= i < |q.targets|
      ensures Tracks(q, base, i) && Staged(q, i)
    {
      Frame(l, q, base, i);
    }
  }

  lemma OpenedTarget(q: Load, base: Store, i: nat)
    requires i < |q.targets| && Proper(base, q.used)
    requires var t := q.targets[i];
      && t.found == (if t.name in base then base[t.name] else [[Metadata(t.incoming)]])
      && IsOpening(if t.name in base then base[t.name] else [], t.found, t.incoming, q.mode, Ok(t.drift))
      && Distinct(t.incoming) && i !in q.landed && t.name !in q.staged && t.name in q.store && q.store[t.name] == t.found
    ensures Tracks(q, base, i) && Staged(q, i)
  {
    var t := q.targets[i];
    OpenStaged(q, base, t.name, t.incoming, t.found);
    hide Separate, DriftOf, Distinct, CommitActions, Head;
  }

  lemma OpenTargets(l: Load, base: Store, step: Step)
    requires Inv(l, base) && step.Open? && Enabled(l, step)
    ensures TargetsInv(Apply(l, step), base)
  {
    OpenLog(l, base, step);
    var q := Apply(l, step);
    hide Tracks, Staged, Names, Apart, Distinct, IsOpening, Aside, Proper;
    forall i | 0 <= i < |q.targets|
      ensures Tracks(q, base, i) && Staged(q, i)
    {
      if i < |l.targets| {
        NameAt(l.targets, i);
        assert Tracks(l, base, i) && Staged(l, i);
        Frame(l, q, base, i);
      } else {
        OpenedTarget(q, base, i);
      }
    }
  }

  lemma OpenAside(l: Load, base: Store, step: Step)
    requires Inv(l, base) && step.Open? && Enabled(l, step)
    ensures AsideInv(Apply(l, step), base)
  {
    OpenLog(l, base, step);
    if step.result.Ok? {
      NamesSnoc(l.targets, Target(step.name, step.after, step.incoming, step.result.value));
    }
    hide Names, Apart, DriftOf, Distinct, Head, IsEmpty, Proper, TargetsInv, IsOpening;
  }

  lemma OpenInv(l: Load, base: Store, step: Step)
    requires Inv(l, base) && step.Open? && Enabled(l, step)
    ensures Inv(Apply(l, step), base)
  {
    OpenTargets(l, base, step);
    OpenAside(l, base, step);
    hide Names, DriftOf, Distinct, Head, IsEmpty, Proper, TargetsInv, AsideInv, IsOpening, Apart;
    if step.result.Ok? {
      ApartSnoc(l.targets, Target(step.name, step.after, step.incoming, step.result.value));
    }
  }

  lemma StagedMore(gone: seq<File>, kept: seq<File>, files: seq<File>, used: set<nat>)
    requires Separate(gone + kept) && Separate(files)
    requires forall f :: f in gone || f in kept ==> f.path in used
    requires forall f :: f in files ==> f.path !in used
    ensures Separate(gone + (kept + files))
  {
    var all, first := gone + (kept + files), gone + kept;
    assert all == first + files;
    forall i, j | 0 <= i < j < |all|
      ensures all[i].path != all[j].path
    {
      if j < |first| {
        assert all[i] == first[i] && all[j] == first[j];
      } else if i < |first| {
        assert first[i] in gone + kept && all[j] in files;
      }
    }
  }

  lemma StagedTarget(l: Load, q: Load, base: Store, i: nat, files: seq<File>)
    requires i < |l.targets| && q.targets == l.targets && Tracks(l, base, i) && Staged(l, i)
    requires Separate(files) && (forall f :: f in files ==> f.path !in l.used && f.path in q.used) && l.used <= q.used
    requires i !in l.landed && q.landed == l.landed && q.mode == l.mode && q.store == l.store
    requires StagedFor(q, l.targets[i].name) == StagedFor(l, l.targets[i].name) + files
    ensures Tracks(q, base, i) && Staged(q, i)
  {
    var t := l.targets[i];
    StagedMore(Head(t.found).files, StagedFor(l, t.name), files, l.used);
    hide Separate, DriftOf, Distinct, CommitActions, Head, StagedFor;
  }

  lemma CloseBlockTargets(l: Load, base: Store, step: Step)
    requires Inv(l, base) && step.CloseBlock? && Enabled(l, step)
    ensures TargetsInv(Apply(l, step), base)
  {
    var q := Apply(l, step);
    hide Tracks, Staged, Separate, AsideInv, Proper;
    forall i | 0 <= i < |q.targets|
      ensures Tracks(q, base, i) && Staged(q, i)
    {
      assert Tracks(l, base, i) && Staged(l, i);
      if i == step.i {
        StagedTarget(l, q, base, i, step.files);
      } else {
        assert l.targets[i].name != l.targets[step.i].name;
        Frame(l, q, base, i);
      }
    }
  }

  lemma CloseBlockInv(l: Load, base: Store, step: Step)
    requires Inv(l, base) && step.CloseBlock? && Enabled(l, step)
    ensures Inv(Apply(l, step), base)
  {
    CloseBlockTargets(l, base, step);
    hide Separate, Head, TargetsInv, Names;
    NameAt(l.targets, step.i);
  }

  lemma BurstBegins(l: Load)
    requires Before(l)
    ensures Burstwise(l.(phase := Burst, pending := Indices(|l.targets|)))
  {
    assert Reported([]) == {} && Succeeding([]) == {};
  }

  /** Turning to the burst, concluding it, or giving up changes no table. */
  lemma TurnInv(l: Load, base: Store, step: Step)
    requires Inv(l, base) && (step.Abandon? || step.BeginBurst? || step.Conclude?) && Enabled(l, step)
    ensures Inv(Apply(l, step), base)
  {
    hide TargetsInv, Burstwise, Apart, Proper, Aside;
    FrameAll(l, Apply(l, step), base);
    if step.BeginBurst? {
      BurstBegins(l);
    } else if step.Conclude? {
      BurstEnds(l, Judge(l.targets, l.reports));
    }
  }

  lemma BurstEnds(l: Load, v: Verdict)
    requires Burstwise(l)
    ensures Burstwise(l.(phase := Ended(v)))
  {
  }

  // ---------------------------------------------------------------- the burst

  /** A commit goes through a handle that is up to date, and appends the target's own version. */
  lemma CommitLog(l: Load, base: Store, step: Step)
    requires Inv(l, base) && step.Commit? && Enabled(l, step)
    ensures var t := l.targets[step.i];
      && LogOf(l.store, t.name) == t.found
      && (step.after == t.found || step.after == t.found + [TargetCommit(l, t)])
      && (step.outcome.Ok? ==> step.after != t.found)
      && step.i !in l.landed && t.name in l.store
  {
    hide DriftOf, Distinct, CommitActions, Head, Announced, IsEmpty, AsideInv, Staged;
    assert Tracks(l, base, step.i);
  }

  lemma CommitTarget(l: Load, q: Load, base: Store, i: nat, after: Log)
    requires i < |l.targets| && q.targets == l.targets && Tracks(l, base, i) && Staged(l, i) && i !in l.landed
    requires q.mode == l.mode && q.staged == l.staged && q.used == l.used
    requires var t := l.targets[i];
      && (after == t.found || after == t.found + [TargetCommit(l, t)])
      && (i in q.landed <==> after != t.found)
      && LogOf(q.store, t.name) == after && t.name in q.store
    ensures Tracks(q, base, i) && Staged(q, i)
  {
    hide Separate, DriftOf, Distinct, CommitActions, Head, Announced, IsEmpty;
  }

  lemma CommitTargets(l: Load, base: Store, step: Step)
    requires Inv(l, base) && step.Commit? && Enabled(l, step)
    ensures TargetsInv(Apply(l, step), base)
  {
    CommitLog(l, base, step);
    hide IsCommit, AsideInv, PhaseInv, Proper, Tracks, Staged, TargetCommit;
    var q := Apply(l, step);
    forall i | 0 <= i < |q.targets|
      ensures Tracks(q, base, i) && Staged(q, i)
    {
      assert Tracks(l, base, i) && Staged(l, i);
      if i == step.i {
        CommitTarget(l, q, base, i, step.after);
      } else {
        assert l.targets[i].name != l.targets[step.i].name;
        Frame(l, q, base, i);
      }
    }
  }

  lemma ReportedSnoc(reports: seq<Report>, r: Report)
    ensures Reported(reports + [r]) == Reported(reports) + {r.target}
    ensures Succeeding(reports + [r]) == Succeeding(reports) + (if r.outcome.Ok? then {r.target} else {})
  {
    var all := reports + [r];
    assert all[|reports|] == r;
    forall n
      ensures n in Reported(all) <==> n in Reported(reports) + {r.target}
      ensures n in Succeeding(all) <==> n in Succeeding(reports) + (if r.outcome.Ok? then {r.target} else {})
    {
      if n in Reported(reports) {
        var i :| 0 <= i < |reports| && reports[i].target == n;
        assert all[i].target == n;
      }
      if n in Succeeding(reports) {
        var i :| 0 <= i < |reports| && reports[i].outcome.Ok? && reports[i].target == n;
        assert all[i].target == n && all[i].outcome.Ok?;
      }
    }
  }

  lemma Moved(pending: set<nat>, reported: set<nat>, t: nat)
    requires pending !! reported && t in pending
    ensures pending - {t} !! reported + {t}
    ensures (pending - {t}) + (reported + {t}) == pending + reported
  {
  }

  lemma OnceSnoc(reports: seq<Report>, r: Report)
    requires Once(reports) && r.target !in Reported(reports)
    ensures Once(reports + [r])
  {
    forall a | 0 <= a < |reports|
      ensures reports[a].target != r.target
    {
      assert reports[a].target in Reported(reports);
    }
  }

  lemma LandedMore(succeeding: set<nat>, landed: set<nat>, reported: set<nat>, t: nat, ok: bool, lands: bool)
    requires succeeding <= landed <= reported && (ok ==> lands)
    ensures succeeding + (if ok then {t} else {}) <= (if lands then landed + {t} else landed) <= reported + {t}
  {
  }

  /** One more report, of a target that was pending. */
  lemma BooksSnoc(l: Load, q: Load, r: Report, lands: bool)
    requires Burstwise(l) && r.target in l.pending && (r.outcome.Ok? ==> lands)
    requires q.targets == l.targets && q.pending == l.pending - {r.target} && q.reports == l.reports + [r]
    requires q.landed == if lands then l.landed + {r.target} else l.landed
    ensures Burstwise(q)
  {
    hide Reported, Succeeding, Indices, Once;
    ReportedSnoc(l.reports, r);
    Moved(l.pending, Reported(l.reports), r.target);
    OnceSnoc(l.reports, r);
    LandedMore(Succeeding(l.reports), l.landed, Reported(l.reports), r.target, r.outcome.Ok?, lands);
  }

  lemma CommitBooks(l: Load, base: Store, step: Step)
    requires Inv(l, base) && step.Commit? && Enabled(l, step)
    ensures Burstwise(Apply(l, step))
  {
    CommitLog(l, base, step);
    hide IsCommit, TargetsInv, AsideInv, Apart, Proper, Burstwise;
    BooksSnoc(l, Apply(l, step), Report(step.i, step.outcome), step.after != LogOf(l.store, l.targets[step.i].name));
  }

  lemma CommitInv(l: Load, base: Store, step: Step)
    requires Inv(l, base) && step.Commit? && Enabled(l, step)
    ensures Inv(Apply(l, step), base)
  {
    CommitTargets(l, base, step);
    CommitBooks(l, base, step);
    hide IsCommit, TargetsInv, Burstwise, Names;
    NameAt(l.targets, step.i);
  }

  lemma StepInv(l: Load, base: Store, step: Step)
    requires Inv(l, base) && Enabled(l, step)
    ensures Inv(Apply(l, step), base)
  {
    hide Inv, Enabled, Apply;
    match step
    case Open(_, _, _, _) => OpenInv(l, base, step);
    case CloseBlock(_, _) => CloseBlockInv(l, base, step);
    case Commit(_, _, _) => CommitInv(l, base, step);
    case _ => TurnInv(l, base, step);
  }
}
